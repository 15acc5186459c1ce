/**
 The live log message of the bot, as kept by its two log handlers:
 `TelegramLogsHandler` (bot/telegram_logger.py) and `LogUpdater`
 (src/bot/handlers/log_utils.py). Each keeps the last fifteen log lines,
 shows them in one Telegram message edited in place, and throttles the
 edits. The clock and the Bot API are passed in: the time of each update as
 a real number, and what each API call answered.
 */
module LogBuffer {
  import opened Text
  import Markup

  const Separator := " - "
  const BufferSize := 15
  /** `max_message_length` of the Telegram handler and of the updater. */
  const TelegramMaxLength := 4090
  const UpdaterMaxLength := 4000

  // ---------------------------------------------------------------------------
  // The shortened entry: `log_entry.split(" - ", 3)[-1] if " - " in log_entry`
  // ---------------------------------------------------------------------------

  /** Where the last piece of `s.split(" - ", n)` starts: after the first `n` separators, or
      after the last one when there are fewer. */
  function PieceStart(s: string, n: nat): (k: nat)
    ensures k <= |s|
    decreases n
  {
    if n == 0 then 0
    else match IndexOf(s, Separator)
      case None => 0
      case Some(k) => k + |Separator| + PieceStart(s[k + |Separator|..], n - 1)
  }

  /** The shortened log line: the message part of `time - name - level - message`. */
  function StripLogPrefix(entry: string): (r: string)
    ensures EndsWith(entry, r)
    ensures r == entry <==> !Contains(entry, Separator)
  {
    if Contains(entry, Separator) then entry[PieceStart(entry, 3)..] else entry
  }

  /** A field of the logging format before the message: no ` -` inside, and no blank at its
      end, so no separator can begin within it. */
  predicate PlainField(a: string) {
    !Contains(a, " -") && (a == [] || a[|a| - 1] != ' ')
  }

  lemma FirstSeparator(a: string, rest: string)
    requires PlainField(a)
    ensures IndexOf(a + Separator + rest, Separator) == Some(|a|)
  {
    var s := a + Separator + rest;
    assert s[|a|..][..|Separator|] == Separator;
    forall j | 0 <= j < |a|
      ensures !StartsWith(s[j..], Separator)
    {
      NoSeparatorInside(a, s, j);
    }
    FirstMatchAt(s, Separator, |a|);
  }

  /** The first match is at `k` when one starts there and none starts before. */
  lemma FirstMatchAt(s: string, t: string, k: nat)
    requires k <= |s| && StartsWith(s[k..], t)
    requires forall j | 0 <= j < k :: !StartsWith(s[j..], t)
    ensures IndexOf(s, t) == Some(k)
  {
    assert Contains(s, t);
  }

  /** No separator starts inside a plain field. */
  lemma NoSeparatorInside(a: string, s: string, k: nat)
    requires PlainField(a) && StartsWith(s, a) && k < |a|
    ensures !StartsWith(s[k..], Separator)
  {
    if StartsWith(s[k..], Separator) {
      var u := s[k..][..|Separator|];
      assert u[0] == ' ' && u[1] == '-';
      assert u[0] == s[k] && u[1] == s[k + 1];
      assert a[k] == s[..|a|][k] == s[k];
      if k + 1 < |a| {
        assert a[k + 1] == s[..|a|][k + 1] == s[k + 1];
        assert a[k..k + 2] == " -";
        ContainsAt(a, " -", k);
      }
    }
  }

  lemma SkipField(a: string, rest: string, n: nat)
    requires PlainField(a)
    ensures PieceStart(a + Separator + rest, n + 1) == |a| + |Separator| + PieceStart(rest, n)
  {
    FirstSeparator(a, rest);
    assert (a + Separator + rest)[|a| + |Separator|..] == rest;
  }

  /** A line in the logging format `%(asctime)s - %(name)s - %(levelname)s - %(message)s`. */
  function FormatLine(time: string, name: string, level: string, msg: string): string {
    time + Separator + (name + Separator + (level + Separator + msg))
  }

  /** A line in the logging format shortens to its message, whatever separators the message
      itself holds. */
  lemma StripLogPrefixFormat(time: string, name: string, level: string, msg: string)
    requires PlainField(time) && PlainField(name) && PlainField(level)
    ensures StripLogPrefix(FormatLine(time, name, level, msg)) == msg
  {
    var inner := level + Separator + msg;
    var middle := name + Separator + inner;
    var s := time + Separator + middle;
    assert PieceStart(s, 3) == |s| - |msg| by {
      SkipField(time, middle, 2);
      SkipField(name, inner, 1);
      SkipField(level, msg, 0);
    }
    assert EndsWith(s, msg) by {
      assert EndsWith(inner, msg);
      EndsWithAppend(name + Separator, inner, msg);
      EndsWithAppend(time + Separator, middle, msg);
    }
    assert Contains(s, Separator) by {
      assert s[|time|..|time| + |Separator|] == Separator;
      ContainsAt(s, Separator, |time|);
    }
  }

  // ---------------------------------------------------------------------------
  // The buffer: separator reset, append, drop the oldest beyond fifteen
  // ---------------------------------------------------------------------------

  /** A line that starts a new section of the log. */
  predicate IsSectionBreak(t: string) {
    Contains(t, "====") || Contains(t, "▬▬▬")
  }

  /** The buffer after one more line. */
  function AddEntry(buffer: seq<string>, entry: string): (r: seq<string>)
    ensures r != [] && r[|r| - 1] == entry
    ensures IsSectionBreak(entry) ==> r == [entry]
    ensures |buffer| <= BufferSize ==> |r| <= BufferSize
  {
    var b := (if IsSectionBreak(entry) then [] else buffer) + [entry];
    if |b| > BufferSize then b[1..] else b
  }

  /** The last `n` elements (all of them when there are fewer). */
  function Window<T>(s: seq<T>, n: nat): (r: seq<T>)
  {
    if |s| <= n then s else s[|s| - n..]
  }

  /** The buffer after a run of lines, in arrival order. */
  function AddEntries(buffer: seq<string>, entries: seq<string>): seq<string>
    decreases |entries|
  {
    if entries == [] then buffer
    else AddEntry(AddEntries(buffer, entries[..|entries| - 1]), entries[|entries| - 1])
  }

  lemma AddEntryWindow(x: seq<string>, e: string)
    requires !IsSectionBreak(e)
    ensures AddEntry(Window(x, BufferSize), e) == Window(x + [e], BufferSize)
  {
    if |x| > BufferSize {
      assert Window(x, BufferSize) + [e] == x[|x| - BufferSize..] + [e];
      assert (x[|x| - BufferSize..] + [e])[1..] == (x + [e])[|x| + 1 - BufferSize..];
    }
  }

  /** Without a section break the buffer is the fifteen most recent lines, oldest first. */
  lemma {:induction false} BufferIsWindow(buffer: seq<string>, entries: seq<string>)
    requires |buffer| <= BufferSize
    requires forall i | 0 <= i < |entries| :: !IsSectionBreak(entries[i])
    ensures AddEntries(buffer, entries) == Window(buffer + entries, BufferSize)
    decreases |entries|
  {
    if entries == [] {
      assert buffer + entries == buffer;
    } else {
      var init := entries[..|entries| - 1];
      var last := entries[|entries| - 1];
      BufferIsWindow(buffer, init);
      AddEntryWindow(buffer + init, last);
      assert buffer + init + [last] == buffer + entries;
    }
  }

  /** After a section break the buffer holds the most recent lines from the break on: nothing
      before it survives. */
  lemma {:induction false} BufferAfterBreak(buffer: seq<string>, entries: seq<string>, j: nat)
    requires j < |entries| && IsSectionBreak(entries[j])
    requires forall i | j < i < |entries| :: !IsSectionBreak(entries[i])
    ensures AddEntries(buffer, entries) == Window(entries[j..], BufferSize)
    decreases |entries|
  {
    var init := entries[..|entries| - 1];
    var last := entries[|entries| - 1];
    if j == |entries| - 1 {
      assert entries[j..] == [last];
    } else {
      BufferAfterBreak(buffer, init, j);
      AddEntryWindow(init[j..], last);
      assert init[j..] + [last] == entries[j..];
    }
  }

  // ---------------------------------------------------------------------------
  // The message text: the buffer joined by newlines, cut to its tail
  // ---------------------------------------------------------------------------

  /** `s[-m:]` for `m >= 0`; Python reads `s[-0:]` as the whole of `s`. */
  function PySuffix(s: string, m: nat): (r: string)
    ensures EndsWith(s, r)
    ensures m > 0 ==> |r| == if m < |s| then m else |s|
  {
    if m == 0 || m >= |s| then s else s[|s| - m..]
  }

  /** `log_text` as handed to the update. */
  function LogText(buffer: seq<string>, maxLength: nat): (r: string)
    ensures EndsWith(Join(buffer, "\n"), r)
    ensures maxLength > 0 ==> |r| <= maxLength
    ensures |Join(buffer, "\n")| <= maxLength ==> r == Join(buffer, "\n")
  {
    var t := Join(buffer, "\n");
    if |t| > maxLength then PySuffix(t, maxLength) else t
  }

  /** The newest line is always shown in full when it fits the message on its own. */
  lemma LogTextShowsNewest(buffer: seq<string>, maxLength: nat)
    requires buffer != [] && |buffer[|buffer| - 1]| <= maxLength
    ensures EndsWith(LogText(buffer, maxLength), buffer[|buffer| - 1])
  {
    var t := Join(buffer, "\n");
    var last := buffer[|buffer| - 1];
    JoinEndsWithLast(buffer, "\n");
    var r := LogText(buffer, maxLength);
    assert r == t[|t| - |r|..];
    assert r[|r| - |last|..] == t[|t| - |last|..];
  }

  /** No markup character in the text: the lines the Telegram handler stores. */
  predicate NoAngle(s: string) {
    '<' !in s && '>' !in s
  }

  lemma {:induction false} JoinNoAngle(parts: seq<string>, sep: string)
    requires NoAngle(sep) && forall i | 0 <= i < |parts| :: NoAngle(parts[i])
    ensures NoAngle(Join(parts, sep))
    decreases |parts|
  {
    if |parts| > 1 {
      JoinNoAngle(parts[1..], sep);
    }
  }

  /** The state `add_log` leaves: the buffer, and the text the update is asked to show. */
  datatype Logged = Logged(buffer: seq<string>, text: string)

  /** `TelegramLogsHandler.add_log` up to the update: shortened, cleaned of markup, stored. */
  function TelegramAddLog(buffer: seq<string>, logEntry: string): (r: Logged)
    ensures |buffer| <= BufferSize ==> |r.buffer| <= BufferSize
    ensures |r.text| <= TelegramMaxLength
    ensures EndsWith(Join(r.buffer, "\n"), r.text)
  {
    var line := Markup.CleanHtmlTags(StripLogPrefix(logEntry));
    var b := AddEntry(buffer, line);
    Logged(b, LogText(b, TelegramMaxLength))
  }

  /** `LogUpdater.add_log` up to the update: shortened and stored, without markup cleaning. */
  function UpdaterAddLog(buffer: seq<string>, logEntry: string): (r: Logged)
    ensures |buffer| <= BufferSize ==> |r.buffer| <= BufferSize
    ensures |r.text| <= UpdaterMaxLength
    ensures EndsWith(Join(r.buffer, "\n"), r.text)
  {
    var b := AddEntry(buffer, StripLogPrefix(logEntry));
    Logged(b, LogText(b, UpdaterMaxLength))
  }

  /** The Telegram handler's buffer only ever holds cleaned lines, so its text never holds a
      markup character that could break the `<pre>` wrapper. */
  lemma TelegramTextHasNoTags(buffer: seq<string>, logEntry: string)
    requires forall i | 0 <= i < |buffer| :: NoAngle(buffer[i])
    ensures forall i | 0 <= i < |TelegramAddLog(buffer, logEntry).buffer| ::
      NoAngle(TelegramAddLog(buffer, logEntry).buffer[i])
    ensures NoAngle(TelegramAddLog(buffer, logEntry).text)
  {
    var r := TelegramAddLog(buffer, logEntry);
    var b := r.buffer;
    var line := Markup.CleanHtmlTags(StripLogPrefix(logEntry));
    forall i | 0 <= i < |b|
      ensures NoAngle(b[i])
    {
      if !IsSectionBreak(line) {
        var full := buffer + [line];
        if |full| > BufferSize {
          assert b[i] == full[i + 1];
        } else {
          assert b[i] == full[i];
        }
      }
    }
    JoinNoAngle(b, "\n");
    var t := Join(b, "\n");
    assert r.text == t[|t| - |r.text|..];
  }

  // ---------------------------------------------------------------------------
  // _safe_update: throttling and back-off
  // ---------------------------------------------------------------------------

  const NotFoundError := "message to edit not found"
  const TooManyError := "Too Many Requests"
  const ParseError := "can't parse entities"

  /** The handler's update bookkeeping; `messageId` is the live message, if any. */
  datatype Limiter = Limiter(messageId: Option<int>, lastUpdate: real, interval: real, tooMany: nat)

  /** The bookkeeping of a fresh handler; the updater may be given a message to edit. */
  function Fresh(messageId: Option<int>): (r: Limiter)
    ensures ValidInterval(r)
  {
    Limiter(messageId, 0.0, 2.0, 0)
  }

  predicate ValidInterval(st: Limiter) {
    2.0 <= st.interval <= 10.0
  }

  /** Python's truth value of `self.message_id`. */
  predicate Truthy(id: Option<int>) {
    id.Some? && id.value != 0
  }

  /** `min(10.0, 2.0 + count)`. */
  function Backoff(count: nat): (r: real)
    ensures 2.0 <= r <= 10.0
    ensures r <= 2.0 + count as real && (r == 10.0 || r == 2.0 + count as real)
  {
    if 2.0 + count as real < 10.0 then 2.0 + count as real else 10.0
  }

  /** What one Bot API call answered: the message it produced, or the error's text. */
  datatype Reply = Delivered(messageId: int) | Failed(error: string)

  /** A Bot API call: an edit of a message, or a new message; `html` is `parse_mode="HTML"`. */
  datatype Call = Edit(messageId: Option<int>, text: string, html: bool) | Send(text: string, html: bool)

  function Pre(text: string): string {
    "<pre>" + text + "</pre>"
  }

  /** What one update did: the new bookkeeping, the calls made, and whether it calls itself
      again. */
  datatype Update = Update(state: Limiter, calls: seq<Call>, retry: bool)

  /** Too soon after the last successful update. */
  predicate Throttled(st: Limiter, now: real) {
    now - st.lastUpdate < st.interval
  }

  /** The call a handler makes for `text`: an edit of its message, or a new message. */
  function Target(st: Limiter, text: string, html: bool): Call {
    if Truthy(st.messageId) then Edit(st.messageId, text, html) else Send(text, html)
  }

  /** The message ID a successful call leaves: the new message's, after a send. */
  function Kept(st: Limiter, reply: Reply): Option<int>
    requires reply.Delivered?
  {
    if Truthy(st.messageId) then st.messageId else Some(reply.messageId)
  }

  /** `TelegramLogsHandler._safe_update` at time `now`, given the answer to the HTML call and,
      after a parse error, to the plain-text call. */
  function TelegramSafeUpdate(st: Limiter, now: real, text: string, first: Reply, fallback: Reply): (u: Update)
    ensures Throttled(st, now) ==> u == Update(st, [], false)
    ensures !Throttled(st, now) ==> 1 <= |u.calls| <= 2 && u.calls[0] == Target(st, Pre(text), true)
    ensures u.state.lastUpdate == if !Throttled(st, now) && first.Delivered? then now else st.lastUpdate
    ensures !Throttled(st, now) && first.Delivered? ==> u.state.tooMany == 0 && u.state.interval == st.interval
    ensures ValidInterval(st) ==> ValidInterval(u.state)
    ensures u.retry <==> !Throttled(st, now) && first.Failed? && Contains(first.error, NotFoundError)
    ensures u.retry ==> u.state.messageId.None?
  {
    if Throttled(st, now) then Update(st, [], false)
    else
      var call := Target(st, Pre(text), true);
      match first
        case Delivered(_) =>
          Update(st.(messageId := Kept(st, first), lastUpdate := now, tooMany := 0), [call], false)
        case Failed(e) =>
          if Contains(e, NotFoundError) then Update(st.(messageId := None), [call], true)
          else if Contains(e, TooManyError) then
            var count := st.tooMany + 1;
            Update(st.(tooMany := count, interval := Backoff(count)), [call], false)
          else if Contains(e, ParseError) then
            var plain := Target(st, text, false);
            if fallback.Delivered? then Update(st.(messageId := Kept(st, fallback)), [call, plain], false)
            else Update(st, [call, plain], false)
          else Update(st, [call], false)
  }

  /** `LogUpdater._safe_update`: always an edit, no retry and no plain-text fallback. */
  function UpdaterSafeUpdate(st: Limiter, now: real, text: string, reply: Reply): (u: Update)
    ensures Throttled(st, now) ==> u == Update(st, [], false)
    ensures !Throttled(st, now) ==> u.calls == [Edit(st.messageId, Pre(text), true)]
    ensures u.state.lastUpdate == if !Throttled(st, now) && reply.Delivered? then now else st.lastUpdate
    ensures !Throttled(st, now) && reply.Delivered? ==> u.state.tooMany == 0 && u.state.interval == st.interval
    ensures ValidInterval(st) ==> ValidInterval(u.state)
    ensures u.state.messageId == st.messageId && !u.retry
  {
    if Throttled(st, now) then Update(st, [], false)
    else
      var call := Edit(st.messageId, Pre(text), true);
      match reply
        case Delivered(_) => Update(st.(lastUpdate := now, tooMany := 0), [call], false)
        case Failed(e) =>
          if Contains(e, TooManyError) then
            var count := st.tooMany + 1;
            Update(st.(tooMany := count, interval := Backoff(count)), [call], false)
          else Update(st, [call], false)
  }

  /** One call of `_safe_update`: its time, text, and the API's answers. */
  datatype Event = Event(now: real, text: string, first: Reply, fallback: Reply)

  function StepOf(telegram: bool, st: Limiter, e: Event): Update {
    if telegram then TelegramSafeUpdate(st, e.now, e.text, e.first, e.fallback)
    else UpdaterSafeUpdate(st, e.now, e.text, e.first)
  }

  /** The bookkeeping after a run of updates. */
  function Run(telegram: bool, st: Limiter, events: seq<Event>): Limiter
    decreases |events|
  {
    if events == [] then st
    else StepOf(telegram, Run(telegram, st, events[..|events| - 1]), events[|events| - 1]).state
  }

  /** The times of the successful updates of a run, in order. */
  function Successes(telegram: bool, st: Limiter, events: seq<Event>): seq<real>
    decreases |events|
  {
    if events == [] then []
    else
      var before := Run(telegram, st, events[..|events| - 1]);
      var e := events[|events| - 1];
      Successes(telegram, st, events[..|events| - 1])
        + (if !Throttled(before, e.now) && e.first.Delivered? then [e.now] else [])
  }

  /** Successful updates are at least two seconds apart, and the first comes two seconds after
      the starting time at the earliest: the back-off never lowers the interval below its
      initial value, and it never exceeds ten seconds. */
  lemma {:induction false} UpdatesSpaced(telegram: bool, st: Limiter, events: seq<Event>)
    requires ValidInterval(st)
    ensures ValidInterval(Run(telegram, st, events))
    ensures var s := Successes(telegram, st, events);
      && (s == [] ==> Run(telegram, st, events).lastUpdate == st.lastUpdate)
      && (s != [] ==> Run(telegram, st, events).lastUpdate == s[|s| - 1] && st.lastUpdate + 2.0 <= s[0])
      && forall i | 0 <= i < |s| - 1 :: s[i] + 2.0 <= s[i + 1]
    decreases |events|
  {
    if events != [] {
      UpdatesSpaced(telegram, st, events[..|events| - 1]);
    }
  }

  // ---------------------------------------------------------------------------
  // LogUpdater.init
  // ---------------------------------------------------------------------------

  const InitText := "🔄 Инициализация логов..."

  /** `init`: a first message is sent only when the updater has none; `None` when sending it
      raised (the exception reaches the caller). */
  function UpdaterInit(st: Limiter, reply: Reply): (r: (Option<Limiter>, seq<Call>))
    ensures Truthy(st.messageId) <==> r.1 == []
    ensures Truthy(st.messageId) ==> r.0 == Some(st)
    ensures !Truthy(st.messageId) ==> r.1 == [Send(Pre(InitText), true)]
    ensures r.0.Some? ==> r.0.value.messageId.Some?
    ensures r.0.None? <==> !Truthy(st.messageId) && reply.Failed?
  {
    if Truthy(st.messageId) then (Some(st), [])
    else
      var call := Send(Pre(InitText), true);
      match reply
        case Delivered(id) => (Some(st.(messageId := Some(id))), [call])
        case Failed(_) => (None, [call])
  }

  /** Once an init has produced a message, a second init sends nothing. */
  lemma InitOnce(st: Limiter, first: Reply, second: Reply)
    requires first.Delivered? && first.messageId != 0
    ensures UpdaterInit(st, first).0.Some?
    ensures UpdaterInit(UpdaterInit(st, first).0.value, second).1 == []
  {
  }

  // ---------------------------------------------------------------------------
  // send_result_message
  // ---------------------------------------------------------------------------

  const ResultLimit := 4000
  const TruncationMark := "... [сообщение обрезано]"

  /** The cleaned result text, cut to 4000 characters plus a mark when longer. */
  function ResultText(message: string): (r: string)
    ensures NoAngle(r)
    ensures |r| <= ResultLimit + |TruncationMark|
  {
    var clean := Markup.CleanHtmlTags(message);
    if |clean| > ResultLimit then
      assert NoAngle(TruncationMark);
      CutNoAngle(clean, ResultLimit, TruncationMark);
      clean[..ResultLimit] + TruncationMark
    else clean
  }

  lemma CutNoAngle(a: string, n: nat, b: string)
    requires n <= |a| && NoAngle(a) && NoAngle(b)
    ensures NoAngle(a[..n] + b)
  {
    assert forall c | c in a[..n] + b :: c in a || c in b;
  }

  /** A result that fits is sent whole, and plain text comes back unchanged once unescaped; a
      longer one keeps exactly its first 4000 characters and ends with the mark. */
  lemma ResultTextCut(message: string)
    ensures var clean := Markup.CleanHtmlTags(message);
      && (|clean| <= ResultLimit ==> ResultText(message) == clean)
      && (|clean| > ResultLimit ==>
            && |ResultText(message)| == ResultLimit + |TruncationMark|
            && StartsWith(ResultText(message), clean[..ResultLimit])
            && EndsWith(ResultText(message), TruncationMark))
    ensures '<' !in message && |Markup.CleanHtmlTags(message)| <= ResultLimit ==>
      Markup.Unescape(ResultText(message)) == message
  {
    if '<' !in message {
      Markup.CleanHtmlTagsPlain(message);
    }
  }

  /** `send_result_message`: the result as HTML, and after a failure the first 4090
      characters as plain text. */
  function SendResult(message: string, first: Reply): (r: seq<Call>)
    ensures |r| == if first.Failed? then 2 else 1
    ensures r[0] == Send(Pre(ResultText(message)), true)
    ensures first.Failed? ==>
      !r[1].html && |r[1].text| <= TelegramMaxLength && StartsWith(ResultText(message), r[1].text)
  {
    var text := ResultText(message);
    [Send(Pre(text), true)] + (if first.Failed? then [Send(PyPrefix(text, TelegramMaxLength), false)] else [])
  }
}

/**
 The chat-ID access gate of the bot (src/bot/register_handlers.py): the
 allowed chat ID read once from the configuration, the check every incoming
 message passes through, and the handler wrapper built around it. The
 configuration file is passed in as what reading it gave.
 */
module ChatAccess {
  import opened Text
  import Config

  const ChatIdKey := "TELEGRAM_CHAT_ID"
  const DeniedText := "Вам доступ запрещен."

  // ---------------------------------------------------------------------------
  // Python's int() on a string
  // ---------------------------------------------------------------------------

  /** The digits of a base-10 literal: digits, with single underscores between digits. */
  predicate DecimalBody(s: string) {
    && s != [] && IsDigit(s[0]) && IsDigit(s[|s| - 1])
    && (forall i | 0 <= i < |s| :: IsDigit(s[i]) || s[i] == '_')
    && !Contains(s, "__")
  }

  lemma DigitsDecimal(d: string)
    requires d != [] && AllDigits(d)
    ensures DecimalBody(d)
  {
    if Contains(d, "__") {
      var i :| 0 <= i <= |d| && StartsWith(d[i..], "__");
      assert d[i..][0] == d[i];
    }
  }

  /** The literal with its underscores removed. */
  function DropUnderscores(s: string): (r: string)
    requires forall i | 0 <= i < |s| :: IsDigit(s[i]) || s[i] == '_'
    ensures AllDigits(r) && |r| <= |s|
  {
    if s == [] then [] else (if s[0] == '_' then [] else [s[0]]) + DropUnderscores(s[1..])
  }

  /** `int(s)`: surrounding whitespace ignored, an optional sign, then a decimal body; `None`
      where Python raises `ValueError`. */
  function PyInt(s: string): (r: Option<int>)
    ensures r.Some? ==> Strip(s) != []
    ensures Strip(s) != [] && (Strip(s)[0] == '-' || Strip(s)[0] == '+') ==>
      (r.Some? <==> DecimalBody(Strip(s)[1..]))
    ensures Strip(s) != [] && Strip(s)[0] != '-' && Strip(s)[0] != '+' ==>
      (r.Some? <==> DecimalBody(Strip(s)))
    ensures r.Some? && r.value < 0 ==> Strip(s)[0] == '-'
  {
    var t := Strip(s);
    if t == [] then None
    else
      var signed := t[0] == '-' || t[0] == '+';
      var body := if signed then t[1..] else t;
      if !DecimalBody(body) then None
      else
        var v: int := NatOfDigits(DropUnderscores(body));
        Some(if t[0] == '-' then -v else v)
  }

  lemma {:induction false} DropUnderscoresDigits(s: string)
    requires AllDigits(s)
    ensures DropUnderscores(s) == s
  {
    if s != [] {
      DropUnderscoresDigits(s[1..]);
    }
  }

  /** A string without whitespace at either end is its own strip. */
  lemma StripUntouched(s: string)
    requires s != [] && !IsSpace(s[0]) && !IsSpace(s[|s| - 1])
    ensures Strip(s) == s
  {
    assert TrimLeft(s) == s;
  }

  /** `int(str(i)) == i`: the way Python prints an integer reads back as that integer. */
  lemma PyIntRoundTrip(i: int)
    ensures PyInt(IntToString(i)) == Some(i)
  {
    var n: nat := if i < 0 then -i else i;
    NatToStringRoundTrip(n);
    if i < 0 {
      PyIntNegative(NatToString(n));
    } else {
      PyIntDigits(NatToString(n));
    }
  }

  lemma PyIntDigits(d: string)
    requires d != [] && AllDigits(d)
    ensures PyInt(d) == Some(NatOfDigits(d))
  {
    StripUntouched(d);
    DigitsDecimal(d);
    DropUnderscoresDigits(d);
  }

  lemma PyIntNegative(d: string)
    requires d != [] && AllDigits(d)
    ensures PyInt("-" + d) == Some(-(NatOfDigits(d) as int))
  {
    var t := "-" + d;
    SignedShape(d);
    assert t[1..] == d;
    DigitsDecimal(d);
    DropUnderscoresDigits(d);
    assert DecimalBody(t[1..]) && DropUnderscores(t[1..]) == d;
    PyIntMinus(t);
  }

  lemma PyIntMinus(t: string)
    requires Strip(t) == t && t != [] && t[0] == '-' && DecimalBody(t[1..])
    ensures PyInt(t) == Some(-(NatOfDigits(DropUnderscores(t[1..])) as int))
  {
  }

  lemma SignedShape(d: string)
    requires d != [] && AllDigits(d)
    ensures Strip("-" + d) == "-" + d && ("-" + d)[0] == '-' && ("-" + d)[1..] == d
  {
    var s := "-" + d;
    assert s[|s| - 1] == d[|d| - 1];
    StripUntouched(s);
  }

  /** Surrounding whitespace is ignored, as in a configuration value written `KEY= 42`. */
  lemma PyIntIgnoresBlanks(s: string)
    ensures PyInt(s) == PyInt(Strip(s))
  {
    StripIdempotent(s);
    var t := Strip(s);
    assert Strip(t) == t;
  }

  /** A character that can occur in no integer literal makes the conversion fail. */
  lemma PyIntRefuses(s: string, i: nat)
    requires i < |Strip(s)|
    requires var c := Strip(s)[i]; !IsDigit(c) && c != '_' && c != '-' && c != '+'
    ensures PyInt(s).None?
  {
    var t := Strip(s);
    if t[0] == '-' || t[0] == '+' {
      assert t[1..][i - 1] == t[i];
    }
  }

  // ---------------------------------------------------------------------------
  // ALLOWED_CHAT_ID, check_chat_id, create_handler (lines 22-54)
  // ---------------------------------------------------------------------------

  /** `ALLOWED_CHAT_ID`: the configured chat ID as an integer, `None` when the key is missing,
      its value empty, or not an integer. */
  function AllowedChatId(f: Config.FileState): (r: Option<int>)
    ensures ChatIdKey !in Config.LoadConfig(f) ==> r.None?
    ensures r.Some? ==> PyInt(Config.LoadConfig(f)[ChatIdKey]) == r
    ensures ChatIdKey in Config.LoadConfig(f) && Config.LoadConfig(f)[ChatIdKey] != [] ==>
      r == PyInt(Config.LoadConfig(f)[ChatIdKey])
  {
    var chatId := Config.GetConfigValue(f, ChatIdKey, "");
    if chatId == [] then None else PyInt(chatId)
  }

  /** The check's verdict, and the reply it sends when it refuses. */
  datatype Gate = Gate(pass: bool, reply: Option<string>)

  /** `check_chat_id` for a message from chat `chat`. */
  function CheckChatId(allowed: Option<int>, chat: int): (r: Gate)
    ensures r.pass <==> allowed.None? || allowed.value == chat
    ensures r.reply.Some? <==> !r.pass
    ensures r.reply.Some? ==> r.reply.value == DeniedText
  {
    if allowed.None? then Gate(true, None)
    else if chat != allowed.value then Gate(false, Some(DeniedText))
    else Gate(true, None)
  }

  /** What handling one message does: reply, or run the wrapped handler (with the FSM state
      when one was given). */
  datatype Action = Reply(text: string) | Invoke(withState: bool)

  predicate IsInvoke(a: Action) {
    a.Invoke?
  }

  /** `wrapped_handler` built by `create_handler`. */
  function Wrapped(allowed: Option<int>, chat: int, hasState: bool): (r: seq<Action>)
    ensures Count(r, IsInvoke) <= 1
    ensures Count(r, IsInvoke) == 1 <==> CheckChatId(allowed, chat).pass
    ensures forall k | 0 <= k < |r| && r[k].Invoke? :: r[k].withState == hasState
    ensures !CheckChatId(allowed, chat).pass ==> r == [Reply(DeniedText)]
  {
    var gate := CheckChatId(allowed, chat);
    if !gate.pass then [Reply(gate.reply.value)] else [Invoke(hasState)]
  }

  /** A chat ID that is set but not an integer lets every chat through: the gate fails open. */
  lemma NonIntegerFailsOpen(f: Config.FileState, chat: int, hasState: bool)
    requires ChatIdKey in Config.LoadConfig(f)
    requires PyInt(Config.LoadConfig(f)[ChatIdKey]).None?
    ensures Wrapped(AllowedChatId(f), chat, hasState) == [Invoke(hasState)]
  {
  }

  /** A chat ID written as Python prints the integer `a` admits the chat `a` and no other. */
  lemma ConfiguredChatOnly(f: Config.FileState, a: int, chat: int, hasState: bool)
    requires ChatIdKey in Config.LoadConfig(f)
    requires Config.LoadConfig(f)[ChatIdKey] == IntToString(a)
    ensures AllowedChatId(f) == Some(a)
    ensures Wrapped(AllowedChatId(f), chat, hasState) ==
      if chat == a then [Invoke(hasState)] else [Reply(DeniedText)]
  {
    PyIntRoundTrip(a);
  }
}

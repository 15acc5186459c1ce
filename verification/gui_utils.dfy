/**
 The settings-tab checks of the desktop window (gui/utils.py): the format
 check of the entered token and chat ID (`test_config`) and the detection of
 which keys the configuration file sets (`update_config_info`). The entry
 fields and the file's lines are passed in; message boxes are left out.
 */
module GuiUtils {
  import opened Text
  import Config

  // ---------------------------------------------------------------------------
  // test_config (lines 12-33)
  // ---------------------------------------------------------------------------

  /** A format problem, in the order the check reports them. */
  datatype Issue = NoColon | TooShort | BadChatId

  const MinTokenLength := 35

  function Rank(i: Issue): nat {
    match i
      case NoColon => 0
      case TooShort => 1
      case BadChatId => 2
  }

  /** The warning line shown for an issue. */
  function IssueText(i: Issue): string {
    match i
      case NoColon => "Токен должен содержать символ ':'"
      case TooShort => "Токен слишком короткий"
      case BadChatId => "Chat ID должен быть числом (может начинаться с '-')"
  }

  /** `s.lstrip(c)`: every leading `c` removed. */
  function LStripChar(s: string, c: char): (r: string)
    ensures |r| <= |s| && r == s[|s| - |r|..]
    ensures r == [] || r[0] != c
    ensures forall i | 0 <= i < |s| - |r| :: s[i] == c
  {
    if s != [] && s[0] == c then LStripChar(s[1..], c) else s
  }

  /** `s.isdigit()` over ASCII digits: false for the empty string. */
  predicate IsDigitStr(s: string) {
    s != [] && AllDigits(s)
  }

  /** The chat-ID format: digits once the leading dashes are removed. */
  predicate ChatIdFormat(chat: string) {
    IsDigitStr(LStripChar(chat, '-'))
  }

  /** What pressing the check button gives: a warning that a field is empty, or the issues. */
  datatype Check = Incomplete | Checked(issues: seq<Issue>)

  /** The issues in report order, each at most once. */
  predicate InReportOrder(issues: seq<Issue>) {
    forall i, j | 0 <= i < j < |issues| :: Rank(issues[i]) < Rank(issues[j])
  }

  /** The issue list for the three tests' outcomes, appended in the order they run. */
  function Issues(noColon: bool, tooShort: bool, badChatId: bool): (r: seq<Issue>)
    ensures InReportOrder(r)
    ensures NoColon in r <==> noColon
    ensures TooShort in r <==> tooShort
    ensures BadChatId in r <==> badChatId
  {
    (if noColon then [NoColon] else [])
      + (if tooShort then [TooShort] else [])
      + (if badChatId then [BadChatId] else [])
  }

  /** `test_config`, given what the two entry fields hold. */
  function TestConfig(tokenEntry: string, chatEntry: string): (r: Check)
    ensures r.Incomplete? <==> Strip(tokenEntry) == [] || Strip(chatEntry) == []
    ensures r.Checked? ==> InReportOrder(r.issues)
    ensures r.Checked? ==> (NoColon in r.issues <==> ':' !in Strip(tokenEntry))
    ensures r.Checked? ==> (TooShort in r.issues <==> |Strip(tokenEntry)| < MinTokenLength)
    ensures r.Checked? ==> (BadChatId in r.issues <==> !ChatIdFormat(Strip(chatEntry)))
  {
    var token := Strip(tokenEntry);
    var chat := Strip(chatEntry);
    if token == [] || chat == [] then Incomplete
    else Checked(Issues(':' !in token, |token| < MinTokenLength, !ChatIdFormat(chat)))
  }

  /** The check passes (no issue to report) exactly when both fields are filled, the token
      holds a colon and 35 characters, and the chat ID is digits behind optional dashes. */
  lemma TestConfigPasses(tokenEntry: string, chatEntry: string)
    ensures TestConfig(tokenEntry, chatEntry) == Checked([]) <==>
      var token := Strip(tokenEntry);
      && token != [] && Strip(chatEntry) != []
      && ':' in token && |token| >= MinTokenLength && ChatIdFormat(Strip(chatEntry))
  {
    var r := TestConfig(tokenEntry, chatEntry);
    if r.Checked? && r.issues != [] {
      assert r.issues[0] in r.issues;
    }
  }

  /** Any number of leading dashes in front of digits is accepted. */
  lemma {:induction false} DashesThenDigits(k: nat, d: string)
    requires IsDigitStr(d)
    ensures ChatIdFormat(seq(k, _ => '-') + d)
  {
    if k > 0 {
      var s := seq(k, _ => '-') + d;
      assert s[1..] == seq(k - 1, _ => '-') + d;
      DashesThenDigits(k - 1, d);
    } else {
      assert seq(k, _ => '-') + d == d;
    }
  }

  /** A chat ID made of dashes only is refused, however many. */
  lemma DashesOnly(k: nat)
    ensures !ChatIdFormat(seq(k, _ => '-'))
  {
    var r := LStripChar(seq(k, _ => '-'), '-');
  }

  /** A dash after the first digit is refused: only leading dashes are removed. */
  lemma DashInsideRefused(a: string, b: string)
    requires IsDigitStr(a)
    ensures !ChatIdFormat(a + "-" + b)
  {
    var s := a + "-" + b;
    assert s[0] == a[0];
    assert s[|a|] == '-';
  }

  // ---------------------------------------------------------------------------
  // update_config_info (lines 35-54)
  // ---------------------------------------------------------------------------

  const TokenKey := "TELEGRAM_BOT_TOKEN="
  const ChatKey := "TELEGRAM_CHAT_ID="

  /** One line of the file sets the key `prefix`: it starts with it and the stripped line is
      longer. */
  predicate LineSets(line: string, prefix: string) {
    StartsWith(line, prefix) && |Strip(line)| > |prefix|
  }

  /** `any(... for line in lines)`. */
  predicate AnySets(lines: seq<string>, prefix: string)
    decreases |lines|
  {
    lines != [] && (LineSets(lines[0], prefix) || AnySets(lines[1..], prefix))
  }

  /** What the status line says. */
  datatype ConfigInfo = Configured | Absent(missing: seq<string>) | ReadError | NotFound

  /** `update_config_info`, given what reading the file gave. */
  function UpdateConfigInfo(f: Config.FileState): (r: ConfigInfo)
    ensures f.Missing? <==> r.NotFound?
    ensures f.Unreadable? <==> r.ReadError?
    ensures r.Configured? <==> f.Lines? && AnySets(f.lines, TokenKey) && AnySets(f.lines, ChatKey)
    ensures r.Absent? ==> r.missing != [] && |r.missing| <= 2
    ensures r.Absent? ==> ("токен" in r.missing <==> !AnySets(f.lines, TokenKey))
    ensures r.Absent? ==> ("chat_id" in r.missing <==> !AnySets(f.lines, ChatKey))
  {
    match f
      case Missing => NotFound
      case Unreadable => ReadError
      case Lines(lines) =>
        var tokenSet := AnySets(lines, TokenKey);
        var chatSet := AnySets(lines, ChatKey);
        if tokenSet && chatSet then Configured
        else Absent((if !tokenSet then ["токен"] else []) + (if !chatSet then ["chat_id"] else []))
  }

  /** `any` holds exactly when some line sets the key. */
  lemma {:induction false} AnySetsIff(lines: seq<string>, prefix: string)
    ensures AnySets(lines, prefix) <==> exists i | 0 <= i < |lines| :: LineSets(lines[i], prefix)
    decreases |lines|
  {
    if lines != [] {
      AnySetsIff(lines[1..], prefix);
      if exists i | 0 <= i < |lines| :: LineSets(lines[i], prefix) {
        var i :| 0 <= i < |lines| && LineSets(lines[i], prefix);
        if i > 0 {
          assert lines[1..][i - 1] == lines[i];
        }
      }
      if exists i | 0 <= i < |lines| - 1 :: LineSets(lines[1..][i], prefix) {
        var i :| 0 <= i < |lines| - 1 && LineSets(lines[1..][i], prefix);
        assert lines[i + 1] == lines[1..][i];
      }
    }
  }

  /** For a key that does not start with whitespace, a line sets it exactly when it starts with
      the key and something other than whitespace follows: a value of blanks and the line's
      newline do not count. */
  lemma LineSetsIff(line: string, prefix: string)
    requires prefix != [] && !IsSpace(prefix[0])
    ensures LineSets(line, prefix) <==>
      StartsWith(line, prefix) && exists i | |prefix| <= i < |line| :: !IsSpace(line[i])
  {
    if StartsWith(line, prefix) {
      assert line[0] == prefix[0];
      assert TrimLeft(line) == line;
      var r := TrimRight(line);
      if |r| > |prefix| {
        assert !IsSpace(line[|r| - 1]);
      }
    }
  }

  /** A line the status counts as setting a key `k=` also stores `k` in the configuration the
      bot reads. */
  lemma SetLineStoresKey(line: string, k: string)
    requires k != [] && !IsSpace(k[0]) && '=' !in k
    requires LineSets(line, k + "=")
    ensures Config.KeyOf(line, k)
  {
    var p := k + "=";
    assert line[0] == p[0];
    assert TrimLeft(line) == line;
    var s := Strip(line);
    assert s == line[..|s|];
    assert s[..|p|] == p;
    assert s[|k|] == '=';
    assert '=' in line by { assert line[|k|] == '='; }
    var e := Config.Entry(line).value;
    assert e.0 + "=" + e.1 == s;
    assert s[|e.0|] == '=';
    assert e.0 == s[..|k|] == k;
  }
}

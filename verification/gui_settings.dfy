/**
 The parser-settings block of the settings tab (gui/tabs.py):
 `save_parser_settings` rewriting the lines of `config.txt`,
 `load_parser_settings` reading them back, and `reset_parser_settings`.
 The three Tk variables are a `Settings` record; the file is its lines.
 */
module GuiSettings {
  import opened Text

  /** The keys of `parser_settings`. */
  datatype Key = MaxSellers | ScrollDelay | LoadTimeout

  function Name(k: Key): string {
    match k
      case MaxSellers => "MAX_SELLERS"
      case ScrollDelay => "SCROLL_DELAY"
      case LoadTimeout => "LOAD_TIMEOUT"
  }

  /** The keys in dict order. */
  const ParserKeys: seq<Key> := [MaxSellers, ScrollDelay, LoadTimeout]

  /** The parser key a stripped key text names, if any. */
  function KeyNamed(name: string): (r: Option<Key>)
    ensures r.Some? ==> Name(r.value) == name
  {
    if name == "MAX_SELLERS" then Some(MaxSellers)
    else if name == "SCROLL_DELAY" then Some(ScrollDelay)
    else if name == "LOAD_TIMEOUT" then Some(LoadTimeout)
    else None
  }

  lemma KeyNamedName(k: Key)
    ensures KeyNamed(Name(k)) == Some(k)
  {
  }

  /** Each key name is one unpadded line without `=` that does not start a comment. */
  lemma NameShape(k: Key)
    ensures Name(k) != [] && '=' !in Name(k) && '\n' !in Name(k)
    ensures Name(k)[0] != '#' && !IsSpace(Name(k)[0]) && !IsSpace(Name(k)[|Name(k)| - 1])
  {
  }

  const SectionComment: string := "# Настройки парсера категорий"

  /** The three text variables of the block. */
  datatype Settings = Settings(maxSellers: string, scrollDelay: string, loadTimeout: string)

  /** `reset_parser_settings` */
  const Defaults: Settings := Settings("150", "2.0", "30")

  function ValueOf(s: Settings, k: Key): string {
    match k
      case MaxSellers => s.maxSellers
      case ScrollDelay => s.scrollDelay
      case LoadTimeout => s.loadTimeout
  }

  /** Setting one variable; the others keep their value. */
  function WithValue(s: Settings, k: Key, v: string): (r: Settings)
    ensures ValueOf(r, k) == v
    ensures forall j: Key | j != k :: ValueOf(r, j) == ValueOf(s, j)
  {
    match k
      case MaxSellers => s.(maxSellers := v)
      case ScrollDelay => s.(scrollDelay := v)
      case LoadTimeout => s.(loadTimeout := v)
  }

  /** The assignment a stripped line makes: not a comment and holding a `=`; the key and the
      value are the stripped text before and after the first `=`. */
  function Assignment(l: string): (r: Option<(string, string)>)
    ensures r.Some? <==> '=' in l && !StartsWith(l, "#")
  {
    if '=' in l && !StartsWith(l, "#") then
      var (k, v) := SplitOnce(l, '=').value;
      Some((Strip(k), Strip(v)))
    else None
  }

  /** The parser key a file line assigns, and the value. */
  function LineAssignment(line: string): (r: Option<(Key, string)>)
  {
    match Assignment(Strip(line))
      case None => None
      case Some((name, v)) =>
        match KeyNamed(name)
          case None => None
          case Some(k) => Some((k, v))
  }

  /** A line `a=v` whose key text `a` is not a comment assigns the stripped `a` the stripped
      `v`. */
  lemma AssignmentOf(a: string, v: string)
    requires a != [] && '=' !in a && a[0] != '#'
    ensures Assignment(a + ['='] + v) == Some((Strip(a), Strip(v)))
  {
    var t := a + ['='] + v;
    SplitOnceJoin(a, '=', v);
    assert t[|a|] == '=';
    assert t[0] == a[0];
  }

  /** A written `KEY=value` line reads back as that assignment when the value is unpadded. */
  lemma KeyLineReads(k: Key, v: string)
    requires Strip(v) == v
    ensures LineAssignment(Name(k) + "=" + v) == Some((k, v))
  {
    var t := Name(k) + "=" + v;
    NameShape(k);
    assert t == Name(k) + ['='] + v;
    assert Strip(t) == t by {
      assert t[0] == Name(k)[0];
      assert t[|t| - 1] == if v == [] then '=' else v[|v| - 1];
      StripClean(t);
    }
    StripClean(Name(k));
    AssignmentOf(Name(k), v);
    KeyNamedName(k);
  }

  lemma StripClean(x: string)
    requires x != [] && !IsSpace(x[0]) && !IsSpace(x[|x| - 1])
    ensures Strip(x) == x
  {
  }

  /** A line reads the same once stripped. */
  lemma LineAssignmentStrip(line: string)
    ensures LineAssignment(Strip(line)) == LineAssignment(line)
  {
    StripIdempotent(line);
  }

  /** How each line of a file is classified. */
  function Classify(lines: seq<string>): (r: seq<Option<(Key, string)>>)
    ensures |r| == |lines| && forall i | 0 <= i < |lines| :: r[i] == LineAssignment(lines[i])
  {
    seq(|lines|, (i: int) requires 0 <= i < |lines| => LineAssignment(lines[i]))
  }

  predicate AssignsKey(p: Option<(Key, string)>, k: Key) {
    p.Some? && p.value.0 == k
  }

  /** The line assigns parser key `k`. */
  predicate Assigns(line: string, k: Key) {
    AssignsKey(LineAssignment(line), k)
  }

  // ---------------------------------------------------------------------------
  // save_parser_settings (lines 364-385)
  // ---------------------------------------------------------------------------

  function KeyText(k: Key, s: Settings): string {
    Name(k) + "=" + ValueOf(s, k)
  }

  /** The text the loop writes for one line, without its newline: `KEY=value` for a line that
      assigns a parser key, the stripped line otherwise. */
  function MergedText(line: string, s: Settings): string {
    match LineAssignment(line)
      case Some((k, _)) => KeyText(k, s)
      case None => Strip(line)
  }

  /** The keys a sequence of classified lines assigns. */
  function KeysOf(ps: seq<Option<(Key, string)>>): set<Key>
    decreases |ps|
  {
    if ps == [] then {}
    else
      var rest := KeysOf(ps[..|ps| - 1]);
      match ps[|ps| - 1]
        case Some((k, _)) => rest + {k}
        case None => rest
  }

  /** `updated_keys` */
  function UpdatedKeys(lines: seq<string>): set<Key> {
    KeysOf(Classify(lines))
  }

  /** The `KEY=value` texts for the keys of `keys` not yet written. */
  function MissingTexts(keys: seq<Key>, updated: set<Key>, s: Settings): (r: seq<string>)
    ensures |r| == Count(keys, Absent(updated))
  {
    if keys == [] then []
    else (if keys[0] in updated then [] else [KeyText(keys[0], s)]) + MissingTexts(keys[1..], updated, s)
  }

  function Absent(updated: set<Key>): Key -> bool {
    (k: Key) => k !in updated
  }

  function Eq(t: string): string -> bool {
    (x: string) => x == t
  }

  /** Each text with its newline. */
  function Terminate(ts: seq<string>): (r: seq<string>)
    ensures |r| == |ts| && forall i | 0 <= i < |ts| :: r[i] == ts[i] + "\n"
  {
    seq(|ts|, (i: int) requires 0 <= i < |ts| => ts[i] + "\n")
  }

  function MergedTexts(lines: seq<string>, s: Settings): (r: seq<string>)
    ensures |r| == |lines| && forall i | 0 <= i < |lines| :: r[i] == MergedText(lines[i], s)
  {
    seq(|lines|, (i: int) requires 0 <= i < |lines| => MergedText(lines[i], s))
  }

  function Header(updated: set<Key>): seq<string> {
    if updated == {} then ["\n" + SectionComment + "\n"] else []
  }

  /** `save_parser_settings` from reading `config.txt` (no lines when it is missing) to the
      list `updated_lines` it writes. */
  function SaveParserSettings(lines: seq<string>, s: Settings): (r: seq<string>)
    ensures |r| == |lines| + (if UpdatedKeys(lines) == {} then 1 else 0) + Count(ParserKeys, Absent(UpdatedKeys(lines)))
    ensures forall i | 0 <= i < |lines| :: r[i] == MergedText(lines[i], s) + "\n"
  {
    var updated := UpdatedKeys(lines);
    Terminate(MergedTexts(lines, s)) + Header(updated) + Terminate(MissingTexts(ParserKeys, updated, s))
  }

  lemma {:induction false} KeysOfIff(ps: seq<Option<(Key, string)>>, k: Key)
    ensures k in KeysOf(ps) <==> exists i | 0 <= i < |ps| :: AssignsKey(ps[i], k)
    decreases |ps|
  {
    if ps != [] {
      var init := ps[..|ps| - 1];
      var n := |ps| - 1;
      KeysOfIff(init, k);
      if k in KeysOf(ps) {
        if !AssignsKey(ps[n], k) {
          var i :| 0 <= i < |init| && AssignsKey(init[i], k);
          assert ps[i] == init[i];
        }
      }
      if exists i | 0 <= i < |ps| :: AssignsKey(ps[i], k) {
        var i :| 0 <= i < |ps| && AssignsKey(ps[i], k);
        if i < n {
          assert init[i] == ps[i];
        }
      }
    }
  }

  /** A key counts as updated exactly when some line assigns it. */
  lemma UpdatedKeysIff(lines: seq<string>, k: Key)
    ensures k in UpdatedKeys(lines) <==> exists i | 0 <= i < |lines| :: Assigns(lines[i], k)
  {
    var ps := Classify(lines);
    KeysOfIff(ps, k);
    if exists i | 0 <= i < |lines| :: Assigns(lines[i], k) {
      var i :| 0 <= i < |lines| && Assigns(lines[i], k);
      assert AssignsKey(ps[i], k);
    }
  }

  /** Different keys never write the same line. */
  lemma KeyTextsDiffer(a: Key, b: Key, s: Settings)
    requires a != b
    ensures KeyText(a, s) != KeyText(b, s)
  {
    NameShape(a);
    NameShape(b);
    SplitOnceJoin(Name(a), '=', ValueOf(s, a));
    SplitOnceJoin(Name(b), '=', ValueOf(s, b));
    assert KeyText(a, s) == Name(a) + ['='] + ValueOf(s, a);
    assert KeyText(b, s) == Name(b) + ['='] + ValueOf(s, b);
  }

  /** Each key of `keys` is written once when it was not updated and never otherwise; a key not
      in `keys` is never written. */
  lemma {:induction false} MissingTextsCount(keys: seq<Key>, updated: set<Key>, s: Settings, k: Key)
    requires Distinct(keys)
    ensures Count(MissingTexts(keys, updated, s), Eq(KeyText(k, s))) == if k in keys && k !in updated then 1 else 0
    decreases |keys|
  {
    if keys != [] {
      var head := if keys[0] in updated then [] else [KeyText(keys[0], s)];
      assert Distinct(keys[1..]) by {
        assert forall i | 0 <= i < |keys| - 1 :: keys[1..][i] == keys[i + 1];
      }
      MissingTextsCount(keys[1..], updated, s, k);
      CountAppend(head, MissingTexts(keys[1..], updated, s), Eq(KeyText(k, s)));
      if keys[0] != k {
        KeyTextsDiffer(keys[0], k, s);
      } else {
        assert k !in keys[1..];
      }
      assert k in keys <==> k == keys[0] || k in keys[1..];
    }
  }

  lemma {:induction false} CountTerminate(ts: seq<string>, t: string)
    ensures Count(Terminate(ts), Eq(t + "\n")) == Count(ts, Eq(t))
  {
    if ts != [] {
      CountTerminate(ts[1..], t);
      assert Terminate(ts)[1..] == Terminate(ts[1..]);
      if ts[0] + "\n" == t + "\n" {
        assert ts[0] == (ts[0] + "\n")[..|ts[0]|];
        assert t == (t + "\n")[..|t|];
      }
    }
  }

  /** The list `save_parser_settings` writes: after the input lines (one for one), the section
      comment exactly when no line assigned a parser key, then one `KEY=value` line for each
      parser key no line assigned, once each. */
  lemma SaveLayout(lines: seq<string>, s: Settings, k: Key)
    ensures UpdatedKeys(lines) == {} <==> forall i, j: Key | 0 <= i < |lines| :: !Assigns(lines[i], j)
    ensures Count(SaveParserSettings(lines, s)[|lines| + |Header(UpdatedKeys(lines))|..], Eq(KeyText(k, s) + "\n"))
      == if exists i | 0 <= i < |lines| :: Assigns(lines[i], k) then 0 else 1
  {
    var updated := UpdatedKeys(lines);
    var r := SaveParserSettings(lines, s);
    var m := MissingTexts(ParserKeys, updated, s);
    assert r[|lines| + |Header(updated)|..] == Terminate(m);
    UpdatedKeysIff(lines, k);
    MissingTextsCount(ParserKeys, updated, s, k);
    CountTerminate(m, KeyText(k, s));
    if updated != {} {
      var j :| j in updated;
      UpdatedKeysIff(lines, j);
    } else {
      forall i, j: Key | 0 <= i < |lines|
        ensures !Assigns(lines[i], j)
      {
        UpdatedKeysIff(lines, j);
      }
    }
  }

  // ---------------------------------------------------------------------------
  // load_parser_settings (lines 408-425)
  // ---------------------------------------------------------------------------

  /** What opening `config.txt` gave: no file, all its lines, or the lines read before an
      exception ended the loop. */
  datatype FileState = Missing | Lines(lines: seq<string>) | FailsAfter(read: seq<string>)

  /** The loop body: an assignment to a parser key sets its variable. */
  function LoadStep(cur: Settings, p: Option<(Key, string)>): Settings {
    match p
      case None => cur
      case Some((k, v)) => WithValue(cur, k, v)
  }

  function LoadParsed(cur: Settings, ps: seq<Option<(Key, string)>>): Settings
    decreases |ps|
  {
    if ps == [] then cur else LoadStep(LoadParsed(cur, ps[..|ps| - 1]), ps[|ps| - 1])
  }

  /** The loop of `load_parser_settings` over the lines. */
  function LoadLines(cur: Settings, lines: seq<string>): Settings {
    LoadParsed(cur, Classify(lines))
  }

  /** `load_parser_settings`: the variables `cur` after reading the file. */
  function LoadParserSettings(f: FileState, cur: Settings): (r: Settings)
    ensures f.Missing? ==> r == cur
  {
    match f
      case Missing => cur
      case Lines(lines) => LoadLines(cur, lines)
      case FailsAfter(read) => LoadLines(cur, read)
  }

  lemma {:induction false} LoadParsedUnassigned(cur: Settings, ps: seq<Option<(Key, string)>>, k: Key)
    requires forall i | 0 <= i < |ps| :: !AssignsKey(ps[i], k)
    ensures ValueOf(LoadParsed(cur, ps), k) == ValueOf(cur, k)
    decreases |ps|
  {
    if ps != [] {
      var init := ps[..|ps| - 1];
      assert forall i | 0 <= i < |init| :: init[i] == ps[i];
      LoadParsedUnassigned(cur, init, k);
    }
  }

  lemma {:induction false} LoadParsedLast(cur: Settings, ps: seq<Option<(Key, string)>>, k: Key, i: nat)
    requires i < |ps| && AssignsKey(ps[i], k)
    requires forall j | i < j < |ps| :: !AssignsKey(ps[j], k)
    ensures ValueOf(LoadParsed(cur, ps), k) == ps[i].value.1
    decreases |ps|
  {
    var init := ps[..|ps| - 1];
    if i < |ps| - 1 {
      assert init[i] == ps[i];
      assert forall j | i < j < |init| :: init[j] == ps[j];
      LoadParsedLast(cur, init, k, i);
    }
  }

  /** For each variable the last line that assigns it wins; comments and lines of other keys
      change nothing. */
  lemma LoadLastWins(cur: Settings, lines: seq<string>, k: Key, i: nat)
    requires i < |lines| && Assigns(lines[i], k)
    requires forall j | i < j < |lines| :: !Assigns(lines[j], k)
    ensures ValueOf(LoadLines(cur, lines), k) == LineAssignment(lines[i]).value.1
  {
    LoadParsedLast(cur, Classify(lines), k, i);
  }

  /** A variable no line assigns keeps its value. */
  lemma LoadUnassigned(cur: Settings, lines: seq<string>, k: Key)
    requires forall i | 0 <= i < |lines| :: !Assigns(lines[i], k)
    ensures ValueOf(LoadLines(cur, lines), k) == ValueOf(cur, k)
  {
    LoadParsedUnassigned(cur, Classify(lines), k);
  }

  /** A classified line that assigns a parser key only the value `s` holds for it. */
  predicate Agrees(p: Option<(Key, string)>, s: Settings) {
    p.None? || p.value.1 == ValueOf(s, p.value.0)
  }

  /** Reading lines that agree with `s`, one of which assigns `k`, leaves `k` at `s`'s value. */
  lemma {:induction false} LoadAgreeing(cur: Settings, ps: seq<Option<(Key, string)>>, s: Settings, k: Key, w: nat)
    requires w < |ps| && AssignsKey(ps[w], k)
    requires forall i | 0 <= i < |ps| :: Agrees(ps[i], s)
    ensures ValueOf(LoadParsed(cur, ps), k) == ValueOf(s, k)
    decreases |ps|
  {
    var init := ps[..|ps| - 1];
    var n := |ps| - 1;
    if !AssignsKey(ps[n], k) {
      assert init[w] == ps[w];
      assert forall i | 0 <= i < n :: init[i] == ps[i];
      LoadAgreeing(cur, init, s, k, w);
    } else {
      assert Agrees(ps[n], s);
    }
  }

  // ---------------------------------------------------------------------------
  // Saving then loading
  // ---------------------------------------------------------------------------

  /** The file text of a list of lines, each followed by a newline. */
  function LinesText(ts: seq<string>): string {
    if ts == [] then [] else ts[0] + "\n" + LinesText(ts[1..])
  }

  lemma {:induction false} LinesTextSplit(ts: seq<string>)
    requires forall i | 0 <= i < |ts| :: '\n' !in ts[i]
    ensures SplitChar(LinesText(ts), '\n') == ts + [""]
  {
    if ts == [] {
      assert IndexOfChar([], '\n') == None;
    } else {
      LinesTextSplit(ts[1..]);
      SplitAfterFirst(ts[0], '\n', LinesText(ts[1..]));
      assert LinesText(ts) == ts[0] + ['\n'] + LinesText(ts[1..]);
    }
  }

  lemma {:induction false} FlattenTerminate(ts: seq<string>)
    ensures Flatten(Terminate(ts)) == LinesText(ts)
  {
    if ts != [] {
      FlattenTerminate(ts[1..]);
      assert Terminate(ts)[1..] == Terminate(ts[1..]);
      assert Terminate(ts)[0] == ts[0] + "\n";
    }
  }

  lemma {:induction false} FlattenAppend(a: seq<string>, b: seq<string>)
    ensures Flatten(a + b) == Flatten(a) + Flatten(b)
  {
    if a == [] {
      assert a + b == b;
    } else {
      FlattenAppend(a[1..], b);
      assert (a + b)[1..] == a[1..] + b;
      assert (a + b)[0] == a[0];
    }
  }

  lemma {:induction false} LinesTextAppend(a: seq<string>, b: seq<string>)
    ensures LinesText(a + b) == LinesText(a) + LinesText(b)
  {
    if a == [] {
      assert a + b == b;
    } else {
      LinesTextAppend(a[1..], b);
      assert (a + b)[1..] == a[1..] + b;
      assert (a + b)[0] == a[0];
    }
  }

  /** The physical lines of the written file, without their newlines, for section comment
      `c`: the comment entry `"\n" + c + "\n"` is an empty line and the comment. */
  function WrittenLines(lines: seq<string>, s: Settings, c: string): seq<string> {
    var updated := UpdatedKeys(lines);
    MergedTexts(lines, s) + (if updated == {} then ["", c] else []) + MissingTexts(ParserKeys, updated, s)
  }

  lemma CommentEntryText(c: string)
    ensures Flatten(["\n" + c + "\n"]) == LinesText(["", c])
  {
    var x := "\n" + c + "\n";
    assert [x][1..] == [];
    assert Flatten([x]) == x + Flatten([]);
    assert ["", c][1..] == [c];
    assert [c][1..] == [];
    assert LinesText([c]) == c + "\n" + LinesText([]);
    assert LinesText(["", c]) == "" + "\n" + LinesText([c]);
  }

  /** The text of the written list: the `updated_lines` entries concatenated are the physical
      lines, each with its newline; the comment entry holds two of them. */
  lemma SavedText(a: seq<string>, header: bool, c: string, m: seq<string>)
    ensures Flatten(Terminate(a) + (if header then ["\n" + c + "\n"] else []) + Terminate(m))
      == LinesText(a + (if header then ["", c] else []) + m)
  {
    var h := if header then ["", c] else [];
    var hs := if header then ["\n" + c + "\n"] else [];
    FlattenAppend(Terminate(a) + hs, Terminate(m));
    FlattenAppend(Terminate(a), hs);
    FlattenTerminate(a);
    FlattenTerminate(m);
    LinesTextAppend(a + h, m);
    LinesTextAppend(a, h);
    if header {
      CommentEntryText(c);
    }
  }

  lemma WrittenText(lines: seq<string>, s: Settings)
    ensures Flatten(SaveParserSettings(lines, s)) == LinesText(WrittenLines(lines, s, SectionComment))
  {
    var updated := UpdatedKeys(lines);
    SavedText(MergedTexts(lines, s), updated == {}, SectionComment, MissingTexts(ParserKeys, updated, s));
  }

  /** A value the file can carry unchanged: one line, with no surrounding whitespace. */
  predicate CleanValue(v: string) {
    '\n' !in v && Strip(v) == v
  }

  predicate CleanSettings(s: Settings) {
    CleanValue(s.maxSellers) && CleanValue(s.scrollDelay) && CleanValue(s.loadTimeout)
  }

  /** A `KEY=value` text of clean settings is one line that agrees with them and assigns `k`. */
  lemma KeyTextAgrees(k: Key, s: Settings)
    requires CleanSettings(s)
    ensures LineAssignment(KeyText(k, s)) == Some((k, ValueOf(s, k))) && '\n' !in KeyText(k, s)
  {
    KeyLineReads(k, ValueOf(s, k));
    NameShape(k);
  }

  /** The merged text of a line agrees, and keeps the line's assignment. */
  lemma MergedLineAgrees(line: string, s: Settings)
    requires CleanSettings(s)
    requires '\n' !in Strip(line)
    ensures Agrees(LineAssignment(MergedText(line, s)), s) && '\n' !in MergedText(line, s)
    ensures forall k: Key :: Assigns(line, k) ==> Assigns(MergedText(line, s), k)
  {
    match LineAssignment(line)
      case Some((j, _)) => KeyTextAgrees(j, s);
      case None => LineAssignmentStrip(line);
  }

  /** Every text `MissingTexts` writes is the `KEY=value` text of one of the keys. */
  lemma {:induction false} MissingTextsAreKeyTexts(keys: seq<Key>, updated: set<Key>, s: Settings, i: nat)
    requires i < |MissingTexts(keys, updated, s)|
    ensures exists k: Key :: MissingTexts(keys, updated, s)[i] == KeyText(k, s)
  {
    var head := if keys[0] in updated then [] else [KeyText(keys[0], s)];
    if i < |head| {
      assert MissingTexts(keys, updated, s)[i] == KeyText(keys[0], s);
    } else {
      MissingTextsAreKeyTexts(keys[1..], updated, s, i - |head|);
      assert MissingTexts(keys, updated, s)[i] == MissingTexts(keys[1..], updated, s)[i - |head|];
    }
  }

  lemma EmptyLineAssignsNothing()
    ensures LineAssignment("") == None
  {
    assert Strip("") == "";
  }

  /** A line that assigns nothing and holds no newline, as the section comment. */
  predicate CommentLine(c: string) {
    LineAssignment(c) == None && '\n' !in c
  }

  lemma CommentAssignsNothing()
    ensures CommentLine(SectionComment)
  {
    StripClean(SectionComment);
    assert StartsWith(SectionComment, "#");
  }

  /** A written line: one physical line that agrees with `s`. */
  predicate Fine(t: string, s: Settings) {
    Agrees(LineAssignment(t), s) && '\n' !in t
  }

  lemma MergedPartFine(lines: seq<string>, s: Settings, i: nat)
    requires CleanSettings(s)
    requires i < |lines| && '\n' !in Strip(lines[i])
    ensures Fine(MergedTexts(lines, s)[i], s)
  {
    MergedLineAgrees(lines[i], s);
  }

  lemma HeaderPartFine(c: string, s: Settings, j: nat)
    requires CommentLine(c) && j < 2
    ensures Fine(["", c][j], s)
  {
    if j == 0 {
      EmptyLineAssignsNothing();
    }
  }

  lemma MissingPartFine(updated: set<Key>, s: Settings, i: nat)
    requires CleanSettings(s)
    requires i < |MissingTexts(ParserKeys, updated, s)|
    ensures Fine(MissingTexts(ParserKeys, updated, s)[i], s)
  {
    MissingTextsAreKeyTexts(ParserKeys, updated, s, i);
    var k: Key :| MissingTexts(ParserKeys, updated, s)[i] == KeyText(k, s);
    KeyTextAgrees(k, s);
  }

  lemma MergedCaseFine(lines: seq<string>, s: Settings, c: string, i: nat)
    requires CleanSettings(s)
    requires forall i | 0 <= i < |lines| :: '\n' !in Strip(lines[i])
    requires i < |lines|
    ensures i < |WrittenLines(lines, s, c)| && Fine(WrittenLines(lines, s, c)[i], s)
  {
    var updated := UpdatedKeys(lines);
    var a := MergedTexts(lines, s);
    var h := if updated == {} then ["", c] else [];
    var m := MissingTexts(ParserKeys, updated, s);
    assert WrittenLines(lines, s, c) == a + h + m;
    var x := PartAt(a, h, m, i);
    MergedPartFine(lines, s, i);
  }

  lemma HeaderCaseFine(lines: seq<string>, s: Settings, c: string, i: nat)
    requires CommentLine(c)
    requires UpdatedKeys(lines) == {} && |lines| <= i < |lines| + 2
    ensures i < |WrittenLines(lines, s, c)| && Fine(WrittenLines(lines, s, c)[i], s)
  {
    HeaderOffsetFine(lines, s, c, i - |lines|);
  }

  lemma HeaderOffsetFine(lines: seq<string>, s: Settings, c: string, j: nat)
    requires CommentLine(c)
    requires UpdatedKeys(lines) == {} && j < 2
    ensures |lines| + j < |WrittenLines(lines, s, c)| && Fine(WrittenLines(lines, s, c)[|lines| + j], s)
  {
    var a := MergedTexts(lines, s);
    var h := ["", c];
    var m := MissingTexts(ParserKeys, {}, s);
    assert WrittenLines(lines, s, c) == a + h + m;
    var x := PartAt(a, h, m, |lines| + j);
    HeaderPartFine(c, s, j);
    assert x == h[j];
  }

  lemma MissingCaseFine(lines: seq<string>, s: Settings, c: string, i: nat)
    requires CleanSettings(s)
    requires |lines| + (if UpdatedKeys(lines) == {} then 2 else 0) <= i < |WrittenLines(lines, s, c)|
    ensures Fine(WrittenLines(lines, s, c)[i], s)
  {
    WrittenLinesLength(lines, s, c);
    MissingOffsetFine(lines, s, c, i - |lines| - (if UpdatedKeys(lines) == {} then 2 else 0));
  }

  lemma MissingOffsetFine(lines: seq<string>, s: Settings, c: string, j: nat)
    requires CleanSettings(s)
    requires j < |MissingTexts(ParserKeys, UpdatedKeys(lines), s)|
    ensures var i := |lines| + (if UpdatedKeys(lines) == {} then 2 else 0) + j;
      i < |WrittenLines(lines, s, c)| && Fine(WrittenLines(lines, s, c)[i], s)
  {
    var updated := UpdatedKeys(lines);
    var a := MergedTexts(lines, s);
    var h := if updated == {} then ["", c] else [];
    var m := MissingTexts(ParserKeys, updated, s);
    assert WrittenLines(lines, s, c) == a + h + m;
    MissingPartFine(updated, s, j);
    ThirdPartAt(a, h, m, j);
  }

  /** Every line of the written file agrees with the new settings. */
  lemma WrittenLineAgrees(lines: seq<string>, s: Settings, c: string, i: nat)
    requires CleanSettings(s) && CommentLine(c)
    requires forall i | 0 <= i < |lines| :: '\n' !in Strip(lines[i])
    requires i < |WrittenLines(lines, s, c)|
    ensures Fine(WrittenLines(lines, s, c)[i], s)
  {
    if i < |lines| {
      MergedCaseFine(lines, s, c, i);
    } else if i < |lines| + (if UpdatedKeys(lines) == {} then 2 else 0) {
      HeaderCaseFine(lines, s, c, i);
    } else {
      MissingCaseFine(lines, s, c, i);
    }
  }

  lemma WrittenLinesLength(lines: seq<string>, s: Settings, c: string)
    ensures |WrittenLines(lines, s, c)| ==
      |lines| + (if UpdatedKeys(lines) == {} then 2 else 0) + |MissingTexts(ParserKeys, UpdatedKeys(lines), s)|
  {
  }

  /** The element at `i` of three joined sequences, read from the part that holds it. */
  lemma PartAt<T>(a: seq<T>, h: seq<T>, m: seq<T>, i: nat) returns (x: T)
    requires i < |a| + |h| + |m|
    ensures x == (a + h + m)[i]
    ensures i < |a| ==> x == a[i]
    ensures |a| <= i < |a| + |h| ==> x == h[i - |a|]
    ensures |a| + |h| <= i ==> x == m[i - |a| - |h|]
  {
    x := (a + h + m)[i];
  }

  lemma MergedPartAssigns(lines: seq<string>, s: Settings, i: nat, k: Key)
    requires CleanSettings(s)
    requires i < |lines| && '\n' !in Strip(lines[i]) && Assigns(lines[i], k)
    ensures Assigns(MergedTexts(lines, s)[i], k)
  {
    MergedLineAgrees(lines[i], s);
  }

  /** A parser key no line assigned has its `KEY=value` text among the missing texts. */
  lemma MissingTextOf(updated: set<Key>, s: Settings, k: Key) returns (j: nat)
    requires k !in updated
    ensures j < |MissingTexts(ParserKeys, updated, s)| && MissingTexts(ParserKeys, updated, s)[j] == KeyText(k, s)
  {
    MissingTextsCount(ParserKeys, updated, s, k);
    j := CountedIndex(MissingTexts(ParserKeys, updated, s), Eq(KeyText(k, s)));
  }

  lemma MissingPartAssigns(updated: set<Key>, s: Settings, k: Key) returns (j: nat)
    requires CleanSettings(s) && k !in updated
    ensures j < |MissingTexts(ParserKeys, updated, s)| && Assigns(MissingTexts(ParserKeys, updated, s)[j], k)
  {
    j := MissingTextOf(updated, s, k);
    KeyTextAgrees(k, s);
  }

  lemma AssigningLine(lines: seq<string>, k: Key) returns (i: nat)
    requires k in UpdatedKeys(lines)
    ensures i < |lines| && Assigns(lines[i], k)
  {
    UpdatedKeysIff(lines, k);
    i :| 0 <= i < |lines| && Assigns(lines[i], k);
  }

  /** A key some line assigned is assigned by that line's rewrite. */
  lemma MergedCaseAssigns(lines: seq<string>, s: Settings, c: string, k: Key) returns (i: nat)
    requires CleanSettings(s)
    requires forall i | 0 <= i < |lines| :: '\n' !in Strip(lines[i])
    requires k in UpdatedKeys(lines)
    ensures i < |WrittenLines(lines, s, c)| && Assigns(WrittenLines(lines, s, c)[i], k)
  {
    var updated := UpdatedKeys(lines);
    var a := MergedTexts(lines, s);
    var h := if updated == {} then ["", c] else [];
    var m := MissingTexts(ParserKeys, updated, s);
    var w := a + h + m;
    assert WrittenLines(lines, s, c) == w;
    i := AssigningLine(lines, k);
    MergedPartAssigns(lines, s, i, k);
    assert w[i] == a[i];
  }

  /** A key no line assigned is assigned by its appended `KEY=value` line. */
  lemma MissingCaseAssigns(lines: seq<string>, s: Settings, c: string, k: Key) returns (i: nat)
    requires CleanSettings(s)
    requires k !in UpdatedKeys(lines)
    ensures i < |WrittenLines(lines, s, c)| && Assigns(WrittenLines(lines, s, c)[i], k)
  {
    var updated := UpdatedKeys(lines);
    var a := MergedTexts(lines, s);
    var h := if updated == {} then ["", c] else [];
    var m := MissingTexts(ParserKeys, updated, s);
    var w := a + h + m;
    assert WrittenLines(lines, s, c) == w;
    var j := MissingPartAssigns(updated, s, k);
    i := |a| + |h| + j;
    ThirdPartAt(a, h, m, j);
  }

  lemma ThirdPartAt<T>(a: seq<T>, h: seq<T>, m: seq<T>, j: nat)
    requires j < |m|
    ensures (a + h + m)[|a| + |h| + j] == m[j]
  {
  }

  /** Every parser key is assigned by some line of the written file. */
  lemma WrittenLinesAssign(lines: seq<string>, s: Settings, c: string, k: Key) returns (i: nat)
    requires CleanSettings(s)
    requires forall i | 0 <= i < |lines| :: '\n' !in Strip(lines[i])
    ensures i < |WrittenLines(lines, s, c)| && Assigns(WrittenLines(lines, s, c)[i], k)
  {
    if k in UpdatedKeys(lines) {
      i := MergedCaseAssigns(lines, s, c, k);
    } else {
      i := MissingCaseAssigns(lines, s, c, k);
    }
  }

  /** An index of an element that `p` accepts, when there is one. */
  function CountedIndex(xs: seq<string>, p: string -> bool): (i: nat)
    requires Count(xs, p) > 0
    ensures i < |xs| && p(xs[i])
  {
    if p(xs[0]) then 0 else 1 + CountedIndex(xs[1..], p)
  }

  /** Reading the written lines back, for any section comment that assigns nothing. */
  lemma LoadWritten(lines: seq<string>, s: Settings, c: string, cur: Settings)
    requires CleanSettings(s) && CommentLine(c)
    requires forall i | 0 <= i < |lines| :: '\n' !in Strip(lines[i])
    ensures LoadLines(cur, SplitChar(LinesText(WrittenLines(lines, s, c)), '\n')) == s
  {
    var w := WrittenLines(lines, s, c);
    forall i | 0 <= i < |w|
      ensures Fine(w[i], s)
    {
      WrittenLineAgrees(lines, s, c, i);
    }
    forall k: Key
      ensures AssignedIn(Classify(w), k)
    {
      var i := WrittenLinesAssign(lines, s, c, k);
      assert AssignsKey(Classify(w)[i], k);
    }
    LoadFineLines(cur, w, s);
  }

  /** Some classified line assigns `k`. */
  predicate AssignedIn(ps: seq<Option<(Key, string)>>, k: Key) {
    exists i | 0 <= i < |ps| :: AssignsKey(ps[i], k)
  }

  /** Lines that each agree with `s`, between them assigning every parser key, written out and
      read back give `s`. */
  lemma LoadFineLines(cur: Settings, w: seq<string>, s: Settings)
    requires forall i | 0 <= i < |w| :: Fine(w[i], s)
    requires forall k: Key :: AssignedIn(Classify(w), k)
    ensures LoadLines(cur, SplitChar(LinesText(w), '\n')) == s
  {
    LinesTextSplit(w);
    TrailingEmptyLine(cur, w);
    LoadAgreeingAll(cur, Classify(w), s);
  }

  /** Classified lines that agree with `s` and assign every parser key load as `s`. */
  lemma LoadAgreeingAll(cur: Settings, ps: seq<Option<(Key, string)>>, s: Settings)
    requires forall i | 0 <= i < |ps| :: Agrees(ps[i], s)
    requires forall k: Key :: AssignedIn(ps, k)
    ensures LoadParsed(cur, ps) == s
  {
    forall k: Key
      ensures ValueOf(LoadParsed(cur, ps), k) == ValueOf(s, k)
    {
      assert AssignedIn(ps, k);
      var i :| 0 <= i < |ps| && AssignsKey(ps[i], k);
      LoadAgreeing(cur, ps, s, k, i);
    }
    assert ValueOf(LoadParsed(cur, ps), MaxSellers) == s.maxSellers;
    assert ValueOf(LoadParsed(cur, ps), ScrollDelay) == s.scrollDelay;
    assert ValueOf(LoadParsed(cur, ps), LoadTimeout) == s.loadTimeout;
  }

  /** The empty piece after the last newline assigns nothing. */
  lemma TrailingEmptyLine(cur: Settings, w: seq<string>)
    ensures LoadLines(cur, w + [""]) == LoadLines(cur, w)
  {
    ClassifyEmptyLast(w);
    LoadParsedNone(cur, Classify(w));
  }

  lemma ClassifyEmptyLast(w: seq<string>)
    ensures Classify(w + [""]) == Classify(w) + [None]
  {
    EmptyLineAssignsNothing();
  }

  lemma LoadParsedNone(cur: Settings, ps: seq<Option<(Key, string)>>)
    ensures LoadParsed(cur, ps + [None]) == LoadParsed(cur, ps)
  {
    assert (ps + [None])[..|ps|] == ps;
  }

  /** Saving then loading: reading the file `save_parser_settings` wrote gives back the saved
      values, whatever the variables held before, provided the values are single-line and
      unpadded and the original lines held one line each. */
  lemma SaveThenLoad(lines: seq<string>, s: Settings, cur: Settings)
    requires CleanSettings(s)
    requires forall i | 0 <= i < |lines| :: '\n' !in Strip(lines[i])
    ensures LoadLines(cur, SplitChar(Flatten(SaveParserSettings(lines, s)), '\n')) == s
  {
    WrittenText(lines, s);
    CommentAssignsNothing();
    LoadWritten(lines, s, SectionComment, cur);
  }

  /** After a reset, saving then loading restores "150", "2.0" and "30". */
  lemma ResetSaveLoad(lines: seq<string>, cur: Settings)
    requires forall i | 0 <= i < |lines| :: '\n' !in Strip(lines[i])
    ensures LoadLines(cur, SplitChar(Flatten(SaveParserSettings(lines, Defaults)), '\n')) == Settings("150", "2.0", "30")
  {
    StripClean("150");
    StripClean("2.0");
    StripClean("30");
    SaveThenLoad(lines, Defaults, cur);
  }
}

/**
 The `key=value` configuration reader (src/utils.py): `load_config` and
 `get_config_value`. The file is passed in as what reading it gave.
 */
module Config {
  import opened Text

  /** What opening `config.txt` gave: no file, an exception while reading, or its lines. */
  datatype FileState = Missing | Unreadable | Lines(lines: seq<string>)

  /** The entry one line contributes: the stripped line split at its first `=`, when the
      line holds a `=`. */
  function Entry(line: string): (r: Option<(string, string)>)
    ensures r.Some? <==> '=' in line
    ensures r.Some? ==> '=' !in r.value.0 && r.value.0 + "=" + r.value.1 == Strip(line)
  {
    if '=' in line then
      var j :| 0 <= j < |line| && line[j] == '=';
      StripKeeps(line, j);
      SplitOnce(Strip(line), '=')
    else None
  }

  /** The loop of `load_config`: each entry stored in turn, so a later key overwrites. */
  function LoadLines(lines: seq<string>): (r: map<string, string>)
    decreases |lines|
  {
    if lines == [] then map[]
    else
      var m := LoadLines(lines[..|lines| - 1]);
      match Entry(lines[|lines| - 1])
        case None => m
        case Some((k, v)) => m[k := v]
  }

  /** `load_config`: `{}` when the file is missing (a template is written then) or reading it
      fails. */
  function LoadConfig(f: FileState): (r: map<string, string>)
    ensures f.Missing? || f.Unreadable? ==> r == map[]
  {
    match f
      case Lines(lines) => LoadLines(lines)
      case _ => map[]
  }

  /** `get_config_value`: the stored value, or `default` when the key is absent. */
  function GetConfigValue(f: FileState, key: string, default: string): (r: string)
    ensures key in LoadConfig(f) ==> r == LoadConfig(f)[key]
    ensures key !in LoadConfig(f) ==> r == default
    ensures f.Missing? ==> r == default
  {
    var config := LoadConfig(f);
    if key in config then config[key] else default
  }

  /** Line `line` stores key `k`. */
  predicate KeyOf(line: string, k: string) {
    Entry(line).Some? && Entry(line).value.0 == k
  }

  /** A key is stored exactly when some line with a `=` strips and splits to it. */
  lemma LoadLinesKeys(lines: seq<string>, k: string)
    ensures k in LoadLines(lines) <==> exists i | 0 <= i < |lines| :: KeyOf(lines[i], k)
  {
    StoredKeyHasLine(lines, k);
    if exists i | 0 <= i < |lines| :: KeyOf(lines[i], k) {
      var i :| 0 <= i < |lines| && KeyOf(lines[i], k);
      LineKeyStored(lines, i, k);
    }
  }

  lemma {:induction false} StoredKeyHasLine(lines: seq<string>, k: string)
    ensures k in LoadLines(lines) ==> exists i | 0 <= i < |lines| :: KeyOf(lines[i], k)
    decreases |lines|
  {
    if lines != [] {
      var init := lines[..|lines| - 1];
      StoredKeyHasLine(init, k);
      LoadLinesStep(lines, k);
      var n := |lines| - 1;
      if k in LoadLines(lines) {
        if KeyOf(lines[n], k) {
          assert 0 <= n < |lines| && KeyOf(lines[n], k);
        } else {
          var i :| 0 <= i < |init| && KeyOf(init[i], k);
          assert init[i] == lines[i];
        }
      }
    }
  }

  lemma {:induction false} LineKeyStored(lines: seq<string>, i: nat, k: string)
    requires i < |lines| && KeyOf(lines[i], k)
    ensures k in LoadLines(lines)
    decreases |lines|
  {
    var init := lines[..|lines| - 1];
    LoadLinesStep(lines, k);
    if i < |lines| - 1 {
      assert init[i] == lines[i];
      LineKeyStored(init, i, k);
    }
  }

  lemma LoadLinesStep(lines: seq<string>, k: string)
    requires lines != []
    ensures k in LoadLines(lines) <==> k in LoadLines(lines[..|lines| - 1]) || KeyOf(lines[|lines| - 1], k)
  {
  }

  /** For a repeated key the last occurrence wins: the stored value is the one of the last line
      whose key it is. */
  lemma {:induction false} LoadLinesLastWins(lines: seq<string>, i: nat)
    requires i < |lines| && Entry(lines[i]).Some?
    requires forall j | i < j < |lines| :: Entry(lines[j]).None? || Entry(lines[j]).value.0 != Entry(lines[i]).value.0
    ensures Entry(lines[i]).value.0 in LoadLines(lines)
    ensures LoadLines(lines)[Entry(lines[i]).value.0] == Entry(lines[i]).value.1
    decreases |lines|
  {
    var init := lines[..|lines| - 1];
    if i < |lines| - 1 {
      assert init[i] == lines[i];
      LoadLinesLastWins(init, i);
    }
  }

  /** A file whose lines hold no `=` gives the empty configuration. */
  lemma NoEqualsNoEntries(lines: seq<string>)
    requires forall i | 0 <= i < |lines| :: '=' !in lines[i]
    ensures LoadConfig(Lines(lines)) == map[]
  {
    forall k | k in LoadLines(lines)
      ensures false
    {
      LoadLinesKeys(lines, k);
    }
  }
}

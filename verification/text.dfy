/**
 Text helpers shared by every module of the model: the handful of Python
 `str` operations the scraper relies on (`in`, `startswith`, `split`,
 `strip`, `lower`, `isdigit`, `join`), stated once over `seq<char>`.
 */
module Text {

  datatype Option<T> = None | Some(value: T)

  /** `s.startswith(p)` */
  predicate StartsWith(s: string, p: string) {
    |p| <= |s| && s[..|p|] == p
  }

  /** `s.endswith(p)` */
  predicate EndsWith(s: string, p: string) {
    |p| <= |s| && s[|s| - |p|..] == p
  }

  /** `t in s` for strings: `t` occurs in `s` as a contiguous substring. */
  predicate Contains(s: string, t: string) {
    exists i | 0 <= i <= |s| :: StartsWith(s[i..], t)
  }

  lemma ContainsAt(s: string, t: string, i: nat)
    requires i + |t| <= |s| && s[i..i + |t|] == t
    ensures Contains(s, t)
  {
    assert StartsWith(s[i..], t);
  }

  lemma StartsWithContains(s: string, t: string)
    requires StartsWith(s, t)
    ensures Contains(s, t)
  {
    assert s[0..] == s;
  }

  /** A substring of a prefix or suffix of `s` is a substring of `s`. */
  lemma ContainsInPrefix(s: string, n: nat, t: string)
    requires n <= |s| && Contains(s[..n], t)
    ensures Contains(s, t)
  {
    var i :| 0 <= i <= n && StartsWith(s[..n][i..], t);
    assert s[i..][..|t|] == s[..n][i..][..|t|];
  }

  lemma ShorterNoContains(s: string, t: string)
    requires |s| < |t|
    ensures !Contains(s, t)
  {
  }

  lemma ContainsInSuffix(s: string, n: nat, t: string)
    requires n <= |s| && Contains(s[n..], t)
    ensures Contains(s, t)
  {
    var i :| 0 <= i <= |s| - n && StartsWith(s[n..][i..], t);
    assert s[n..][i..] == s[n + i..];
  }

  /** A one-character needle is found iff the character occurs. */
  lemma ContainsChar(s: string, c: char)
    ensures Contains(s, [c]) <==> c in s
  {
    if c in s {
      var i :| 0 <= i < |s| && s[i] == c;
      assert StartsWith(s[i..], [c]);
    }
    if Contains(s, [c]) {
      var i :| 0 <= i <= |s| && StartsWith(s[i..], [c]);
      assert s[i] == c;
    }
  }

  /** Python's `str.isdigit`, restricted to the ASCII digits. */
  predicate IsDigit(c: char) {
    '0' <= c <= '9'
  }

  predicate AllDigits(s: string) {
    forall i | 0 <= i < |s| :: IsDigit(s[i])
  }

  /** `''.join(filter(str.isdigit, s))` */
  function Digits(s: string): (r: string)
    ensures |r| <= |s|
    ensures AllDigits(r)
  {
    if s == [] then []
    else if IsDigit(s[0]) then [s[0]] + Digits(s[1..])
    else Digits(s[1..])
  }

  lemma DigitsOfDigits(s: string)
    requires AllDigits(s)
    ensures Digits(s) == s
  {
  }

  lemma DigitsAppend(a: string, b: string)
    ensures Digits(a + b) == Digits(a) + Digits(b)
  {
    if a == [] {
      assert a + b == b;
    } else {
      assert (a + b)[1..] == a[1..] + b;
      DigitsAppend(a[1..], b);
    }
  }

  /** The characters of Python's `str.isspace` (and of regex `\s`). */
  predicate IsSpace(c: char) {
    if c <= ' ' then '\t' <= c <= '\r' || '\U{001C}' <= c
    else if c < '\U{0085}' then false
    else WideSpace(c)
  }

  predicate WideSpace(c: char) {
    || c == '\U{0085}' || c == '\U{00A0}' || c == '\U{1680}'
    || ('\U{2000}' <= c <= '\U{200A}')
    || c == '\U{2028}' || c == '\U{2029}' || c == '\U{202F}' || c == '\U{205F}' || c == '\U{3000}'
  }

  /** No character of `w` is whitespace. */
  predicate NoSpace(w: string) {
    forall i | 0 <= i < |w| :: !IsSpace(w[i])
  }

  /** The characters of `s` that are not whitespace, in order. */
  function NonSpace(s: string): (r: string)
    ensures NoSpace(r)
  {
    if s == [] then [] else (if IsSpace(s[0]) then [] else [s[0]]) + NonSpace(s[1..])
  }

  lemma NonSpaceAppend(a: string, b: string)
    ensures NonSpace(a + b) == NonSpace(a) + NonSpace(b)
  {
    if a == [] {
      assert a + b == b;
    } else {
      assert (a + b)[0] == a[0] && (a + b)[1..] == a[1..] + b;
      NonSpaceAppend(a[1..], b);
    }
  }

  /** All strings of `ss`, concatenated. */
  function Flatten(ss: seq<string>): string {
    if ss == [] then [] else ss[0] + Flatten(ss[1..])
  }

  /** The longest prefix of `s` without whitespace. */
  function WordAt(s: string): (r: string)
    ensures |r| <= |s| && r == s[..|r|] && NoSpace(r)
    ensures |r| < |s| ==> IsSpace(s[|r|])
  {
    if s == [] || IsSpace(s[0]) then [] else [s[0]] + WordAt(s[1..])
  }

  /** `s.split()`: the maximal runs of non-whitespace characters. */
  function Words(s: string): (r: seq<string>)
    ensures forall i | 0 <= i < |r| :: r[i] != [] && NoSpace(r[i])
    decreases |s|
  {
    if s == [] then []
    else if IsSpace(s[0]) then Words(s[1..])
    else
      var w := WordAt(s);
      [w] + Words(s[|w|..])
  }

  /** Splitting on whitespace loses exactly the whitespace. */
  lemma {:induction false} WordsCoverText(s: string)
    ensures Flatten(Words(s)) == NonSpace(s)
    decreases |s|
  {
    if s != [] {
      if IsSpace(s[0]) {
        WordsCoverText(s[1..]);
      } else {
        var w := WordAt(s);
        var rest := s[|w|..];
        WordsCoverText(rest);
        assert s == w + rest;
        NonSpaceAppend(w, rest);
        NoSpaceKept(w);
        assert Words(s) == [w] + Words(rest);
        assert Flatten(Words(s)) == w + Flatten(Words(rest));
      }
    }
  }

  /** A word followed by whitespace (or nothing) is read whole. */
  lemma {:induction false} WordAtWord(w: string, rest: string)
    requires NoSpace(w)
    requires rest == [] || IsSpace(rest[0])
    ensures WordAt(w + rest) == w
  {
    if w != [] {
      assert (w + rest)[1..] == w[1..] + rest;
      WordAtWord(w[1..], rest);
    } else {
      assert w + rest == rest;
    }
  }

  /** Two words separated by one space split into exactly those two words. */
  lemma TwoWords(a: string, b: string)
    requires a != [] && b != [] && NoSpace(a) && NoSpace(b)
    ensures Words(a + " " + b) == [a, b]
  {
    var sb := " " + b;
    var s := a + sb;
    assert a + " " + b == s;
    WordAtWord(a, sb);
    assert s[0] == a[0] && s[|a|..] == sb;
    assert Words(s) == [a] + Words(sb);
    assert sb[0] == ' ' && sb[1..] == b;
    assert Words(sb) == Words(b);
    WordAtWord(b, []);
    assert b + [] == b;
    assert Words(b) == [b] + Words(b[|b|..]);
    assert b[|b|..] == [];
  }

  lemma NoSpaceKept(w: string)
    requires NoSpace(w)
    ensures NonSpace(w) == w
  {
  }

  /** `s.lstrip()` */
  function TrimLeft(s: string): (r: string)
    ensures |r| <= |s|
    ensures r == [] || !IsSpace(r[0])
    ensures forall i | 0 <= i < |s| - |r| :: IsSpace(s[i])
  {
    if s != [] && IsSpace(s[0]) then TrimLeft(s[1..]) else s
  }

  /** `s.rstrip()` */
  function TrimRight(s: string): (r: string)
    ensures |r| <= |s| && forall i | 0 <= i < |r| :: r[i] == s[i]
    ensures r == [] || !IsSpace(r[|r| - 1])
    ensures forall i | |r| <= i < |s| :: IsSpace(s[i])
  {
    if s != [] && IsSpace(s[|s| - 1]) then TrimRight(s[..|s| - 1]) else s
  }

  lemma {:induction false} TrimLeftSuffix(s: string)
    ensures TrimLeft(s) == s[|s| - |TrimLeft(s)|..]
  {
    if s != [] && IsSpace(s[0]) {
      TrimLeftSuffix(s[1..]);
    }
  }

  /** `s.strip()`: a contiguous piece of `s` that neither starts nor ends in whitespace. */
  function Strip(s: string): (r: string)
    ensures |r| <= |s|
    ensures r == [] || (!IsSpace(r[0]) && !IsSpace(r[|r| - 1]))
  {
    TrimRight(TrimLeft(s))
  }

  /** The stripped text sits in `s` right after the leading whitespace. */
  lemma StripInfix(s: string)
    ensures InfixAt(s, Strip(s), |s| - |TrimLeft(s)|)
  {
    TrimLeftSuffix(s);
  }

  /** `r` occurs in `s` starting at index `k`. */
  predicate InfixAt(s: string, r: string, k: int) {
    0 <= k && k + |r| <= |s| && s[k..k + |r|] == r
  }

  /** A string that only holds whitespace strips to the empty string and back. */
  lemma StripNonBlank(s: string)
    ensures Strip(s) == [] <==> forall i | 0 <= i < |s| :: IsSpace(s[i])
  {
    TrimLeftSuffix(s);
  }

  lemma StripIdempotent(s: string)
    ensures Strip(Strip(s)) == Strip(s)
  {
    var r := Strip(s);
    if r != [] {
      assert TrimLeft(r) == r;
      assert TrimRight(r) == r;
    }
  }

  /** `str.lower()` on ASCII and Cyrillic letters; other characters are kept. */
  function LowerChar(c: char): char {
    if 'A' <= c <= 'Z' then (c as int + 32) as char
    else if 'А' <= c <= 'Я' then (c as int + 32) as char
    else if 'Ѐ' <= c <= 'Џ' then (c as int + 80) as char
    else c
  }

  function Lower(s: string): (r: string)
    ensures |r| == |s|
    ensures forall i | 0 <= i < |s| :: r[i] == LowerChar(s[i])
  {
    if s == [] then [] else [LowerChar(s[0])] + Lower(s[1..])
  }

  /** A pattern whose first character never occurs cannot occur. */
  lemma NotContainsFirstChar(s: string, t: string)
    requires t != [] && t[0] !in s
    ensures !Contains(s, t)
  {
    forall i | 0 <= i <= |s|
      ensures !StartsWith(s[i..], t)
    {
      if i < |s| {
        assert s[i..][0] == s[i];
      }
    }
  }

  lemma LowerIdempotent(s: string)
    ensures Lower(Lower(s)) == Lower(s)
  {
  }

  /** `any(m in text for m in markers)`, tested marker by marker in order. */
  predicate ContainsAny(text: string, markers: seq<string>) {
    markers != [] && (Contains(text, markers[0]) || ContainsAny(text, markers[1..]))
  }

  /** Some marker occurs in the text exactly when one of the listed markers does. */
  lemma {:induction false} ContainsAnyIff(text: string, markers: seq<string>)
    ensures ContainsAny(text, markers) <==> exists i | 0 <= i < |markers| :: Contains(text, markers[i])
    decreases |markers|
  {
    if markers != [] {
      ContainsAnyIff(text, markers[1..]);
      if exists i | 0 <= i < |markers| :: Contains(text, markers[i]) {
        var i :| 0 <= i < |markers| && Contains(text, markers[i]);
        if i > 0 {
          assert markers[1..][i - 1] == markers[i];
        }
      }
      if exists i | 0 <= i < |markers| - 1 :: Contains(text, markers[1..][i]) {
        var i :| 0 <= i < |markers| - 1 && Contains(text, markers[1..][i]);
        assert markers[i + 1] == markers[1..][i];
      }
    }
  }

  /** No marker occurs when no marker's first character does. */
  lemma {:induction false} NoMarkerStarts(s: string, markers: seq<string>)
    requires forall i | 0 <= i < |markers| :: markers[i] != [] && markers[i][0] !in s
    ensures !ContainsAny(s, markers)
    decreases |markers|
  {
    if markers != [] {
      NotContainsFirstChar(s, markers[0]);
      assert forall i | 0 <= i < |markers| - 1 :: markers[1..][i] == markers[i + 1];
      NoMarkerStarts(s, markers[1..]);
    }
  }

  /** Every marker, lower-cased. */
  function LowerAll(markers: seq<string>): (r: seq<string>)
    ensures |r| == |markers|
    ensures forall i | 0 <= i < |markers| :: r[i] == Lower(markers[i])
  {
    if markers == [] then [] else [Lower(markers[0])] + LowerAll(markers[1..])
  }

  /** Position of the first occurrence of character `c`, if any. */
  function IndexOfChar(s: string, c: char): (r: Option<nat>)
    ensures r.None? <==> c !in s
    ensures r.Some? ==> r.value < |s| && s[r.value] == c && c !in s[..r.value]
  {
    if s == [] then None
    else if s[0] == c then Some(0)
    else match IndexOfChar(s[1..], c)
      case None => None
      case Some(k) => assert s[..k + 1] == [s[0]] + s[1..][..k]; Some(k + 1)
  }

  /** `s.find(t)` as an option: the first index at which `t` occurs. */
  function IndexOf(s: string, t: string): (r: Option<nat>)
    ensures r.Some? ==> r.value <= |s| && StartsWith(s[r.value..], t)
    ensures r.Some? ==> forall j | 0 <= j < r.value :: !StartsWith(s[j..], t)
    ensures r.None? <==> !Contains(s, t)
    decreases |s|
  {
    if StartsWith(s, t) then Some(0)
    else if s == [] then None
    else match IndexOf(s[1..], t)
      case None =>
        assert forall i | 1 <= i <= |s| :: s[i..] == s[1..][i - 1..];
        None
      case Some(k) =>
        assert forall j | 1 <= j <= k + 1 :: s[j..] == s[1..][j - 1..];
        assert s[k + 1..] == s[1..][k..];
        Some(k + 1)
  }

  /** `s.split(c)[0]`: everything before the first `c`. */
  function BeforeChar(s: string, c: char): (r: string)
    ensures c !in r
    ensures StartsWith(s, r)
    ensures c !in s ==> r == s
    ensures c in s ==> |r| < |s| && s[|r|] == c
  {
    match IndexOfChar(s, c)
      case None => s
      case Some(k) => s[..k]
  }

  lemma BeforeCharIdempotent(s: string, c: char)
    ensures BeforeChar(BeforeChar(s, c), c) == BeforeChar(s, c)
  {
  }

  /** The text before the first `c` of `a + [c] + b` is `a` when `a` holds no `c`. */
  lemma BeforeCharSplit(a: string, c: char, b: string)
    requires c !in a
    ensures BeforeChar(a + [c] + b, c) == a
  {
    var u := a + [c] + b;
    assert u[|a|] == c;
    assert u[..|a|] == a;
  }

  /** `s.split(c)`, for a single-character separator. */
  function SplitChar(s: string, c: char): (r: seq<string>)
    ensures |r| >= 1
    ensures forall i | 0 <= i < |r| :: c !in r[i]
    decreases |s|
  {
    match IndexOfChar(s, c)
      case None => [s]
      case Some(k) => [s[..k]] + SplitChar(s[k + 1..], c)
  }

  /** `sep.join(parts)` */
  function Join(parts: seq<string>, sep: string): string {
    if parts == [] then []
    else if |parts| == 1 then parts[0]
    else parts[0] + sep + Join(parts[1..], sep)
  }

  lemma EndsWithAppend(a: string, s: string, p: string)
    requires EndsWith(s, p)
    ensures EndsWith(a + s, p)
  {
    assert (a + s)[|a + s| - |p|..] == s[|s| - |p|..];
  }

  /** A join ends with its last part. */
  lemma {:induction false} JoinEndsWithLast(parts: seq<string>, sep: string)
    requires parts != []
    ensures EndsWith(Join(parts, sep), parts[|parts| - 1])
    decreases |parts|
  {
    if |parts| > 1 {
      JoinEndsWithLast(parts[1..], sep);
      EndsWithAppend(parts[0] + sep, Join(parts[1..], sep), parts[|parts| - 1]);
    }
  }

  lemma {:induction false} JoinSplit(s: string, c: char)
    ensures Join(SplitChar(s, c), [c]) == s
    decreases |s|
  {
    match IndexOfChar(s, c)
      case None =>
      case Some(k) =>
        var rest := SplitChar(s[k + 1..], c);
        JoinSplit(s[k + 1..], c);
        assert SplitChar(s, c) == [s[..k]] + rest;
        assert (SplitChar(s, c))[1..] == rest;
        assert s == s[..k] + [c] + s[k + 1..];
  }

  /** The first `c` of `a + [c] + b` is the one after `a` when `a` holds none. */
  lemma IndexOfCharSplit(a: string, c: char, b: string)
    requires c !in a
    ensures IndexOfChar(a + [c] + b, c) == Some(|a|)
  {
    var u := a + [c] + b;
    assert u[|a|] == c;
    assert u[..|a|] == a;
  }

  /** Splitting a join at a separator the parts do not contain gives the parts back. */
  lemma {:induction false} SplitJoin(parts: seq<string>, c: char)
    requires parts != []
    requires forall i | 0 <= i < |parts| :: c !in parts[i]
    ensures SplitChar(Join(parts, [c]), c) == parts
  {
    if |parts| == 1 {
      assert IndexOfChar(parts[0], c) == None;
    } else {
      var rest := Join(parts[1..], [c]);
      var s := parts[0] + [c] + rest;
      assert Join(parts, [c]) == s;
      IndexOfCharSplit(parts[0], c, rest);
      SplitJoin(parts[1..], c);
      SplitAfterFirst(parts[0], c, rest);
      assert parts == [parts[0]] + parts[1..];
    }
  }

  lemma SplitAfterFirst(a: string, c: char, b: string)
    requires c !in a
    ensures SplitChar(a + [c] + b, c) == [a] + SplitChar(b, c)
  {
    var s := a + [c] + b;
    IndexOfCharSplit(a, c, b);
    assert s[..|a|] == a;
    assert s[|a| + 1..] == b;
  }

  /** `s.split(c, 1)` when `c` occurs: the text before the first `c` and everything after it. */
  function SplitOnce(s: string, c: char): (r: Option<(string, string)>)
    ensures r.None? <==> c !in s
    ensures r.Some? ==> c !in r.value.0 && r.value.0 + [c] + r.value.1 == s
  {
    match IndexOfChar(s, c)
      case None => None
      case Some(k) =>
        assert s == s[..k] + [c] + s[k + 1..];
        Some((s[..k], s[k + 1..]))
  }

  /** The split is unique: `a + [c] + b` splits back into `a` and `b` when `a` holds no `c`. */
  lemma SplitOnceJoin(a: string, c: char, b: string)
    requires c !in a
    ensures SplitOnce(a + [c] + b, c) == Some((a, b))
  {
    IndexOfCharSplit(a, c, b);
    var s := a + [c] + b;
    assert s[..|a|] == a;
    assert s[|a| + 1..] == b;
  }

  /** Stripping keeps every character that is not whitespace. */
  lemma StripKeeps(s: string, j: nat)
    requires j < |s| && !IsSpace(s[j])
    ensures s[j] in Strip(s)
  {
    var l := TrimLeft(s);
    var k := |s| - |l|;
    TrimLeftSuffix(s);
    assert j >= k;
    assert l[j - k] == s[j];
    var r := TrimRight(l);
    assert j - k < |r|;
    assert r[j - k] == s[j];
  }

  /** `s.replace(a, b)` for single characters. */
  function ReplaceChar(s: string, a: char, b: char): (r: string)
    ensures |r| == |s|
    ensures forall i | 0 <= i < |s| :: r[i] == (if s[i] == a then b else s[i])
  {
    if s == [] then [] else [if s[0] == a then b else s[0]] + ReplaceChar(s[1..], a, b)
  }

  /** No element occurs twice. */
  predicate Distinct<T(==)>(s: seq<T>) {
    forall i, j | 0 <= i < j < |s| :: s[i] != s[j]
  }

  /** `s[:n]` with Python's slice semantics, negative `n` counting from the end. */
  function PyPrefix<T>(s: seq<T>, n: int): (r: seq<T>)
    ensures |r| <= |s| && r == s[..|r|]
    ensures n >= 0 ==> |r| == if n < |s| then n else |s|
  {
    if n >= 0 then (if n < |s| then s[..n] else s)
    else if |s| + n > 0 then s[..|s| + n] else []
  }

  function DigitValue(c: char): nat
    requires IsDigit(c)
  {
    c as int - '0' as int
  }

  /** `int(s)` for a string of ASCII digits. */
  function NatOfDigits(s: string): nat
    requires AllDigits(s)
  {
    if s == [] then 0 else NatOfDigits(s[..|s| - 1]) * 10 + DigitValue(s[|s| - 1])
  }

  /** `str(n)` for a natural number. */
  function NatToString(n: nat): (r: string)
    ensures r != [] && AllDigits(r)
  {
    if n < 10 then [('0' as int + n) as char]
    else NatToString(n / 10) + [('0' as int + n % 10) as char]
  }

  lemma {:induction false} NatToStringRoundTrip(n: nat)
    ensures NatOfDigits(NatToString(n)) == n
  {
    if n >= 10 {
      var r := NatToString(n);
      NatToStringRoundTrip(n / 10);
      assert r[..|r| - 1] == NatToString(n / 10);
    }
  }

  /** `str(i)` for any integer, as Python prints it. */
  function IntToString(i: int): (r: string)
    ensures r != []
  {
    if i < 0 then "-" + NatToString(-i) else NatToString(i)
  }

  /** Number of elements satisfying `p`. */
  function Count<T>(s: seq<T>, p: T -> bool): (r: nat)
    ensures r <= |s|
  {
    if s == [] then 0 else (if p(s[0]) then 1 else 0) + Count(s[1..], p)
  }

  /** Counting a non-empty sequence: its prefix, then its last element. */
  lemma CountSnoc<T>(s: seq<T>, p: T -> bool)
    requires s != []
    ensures Count(s, p) == Count(s[..|s| - 1], p) + (if p(s[|s| - 1]) then 1 else 0)
  {
    var n := |s| - 1;
    assert s == s[..n] + [s[n]];
    CountAppend(s[..n], [s[n]], p);
  }

  lemma CountAppend<T>(a: seq<T>, b: seq<T>, p: T -> bool)
    ensures Count(a + b, p) == Count(a, p) + Count(b, p)
  {
    if a == [] {
      assert a + b == b;
    } else {
      assert (a + b)[1..] == a[1..] + b;
      CountAppend(a[1..], b, p);
    }
  }
}

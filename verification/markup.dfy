/**
 The three pieces of HTML handling the scraper does with regular expressions
 and the `html` module: removing tags (`re.sub(r'<[^>]+>', '', s)`),
 escaping (`html.escape`), and pulling the bodies of `<p>` elements out of a
 tooltip's outer HTML (`re.findall(r'<p[^>]*>(.*?)</p>', s, re.DOTALL)`).
 */
module Markup {
  import opened Text

  /** `re.sub(r'<[^>]+>', '', s)`: a `<` starts a tag only when a later `>` closes it
      and at least one character lies between them. */
  function StripTags(s: string): (r: string)
    ensures |r| <= |s|
    ensures '<' !in s ==> r == s
    decreases |s|
  {
    if s == [] then []
    else if s[0] == '<' then
      match IndexOfChar(s[1..], '>')
        case Some(k) => if k >= 1 then StripTags(s[k + 2..]) else "<" + StripTags(s[1..])
        case None => "<" + StripTags(s[1..])
    else [s[0]] + StripTags(s[1..])
  }

  /** The entity `html.escape` writes for one character. */
  function EscapeChar(c: char): string {
    if c == '&' then "&amp;"
    else if c == '<' then "&lt;"
    else if c == '>' then "&gt;"
    else if c == '"' then "&quot;"
    else if c == '\'' then "&#x27;"
    else [c]
  }

  /** `html.escape(s)` (with `quote=True`). */
  function Escape(s: string): (r: string)
    ensures '<' !in r && '>' !in r
    ensures |r| >= |s|
  {
    if s == [] then [] else EscapeChar(s[0]) + Escape(s[1..])
  }

  /** The inverse of `Escape`: the five entities back to their characters. */
  function Unescape(s: string): string
    decreases |s|
  {
    if s == [] then []
    else if s[0] != '&' then [s[0]] + Unescape(s[1..])
    else if StartsWith(s, "&amp;") then "&" + Unescape(s[5..])
    else if StartsWith(s, "&lt;") then "<" + Unescape(s[4..])
    else if StartsWith(s, "&gt;") then ">" + Unescape(s[4..])
    else if StartsWith(s, "&quot;") then "\"" + Unescape(s[6..])
    else if StartsWith(s, "&#x27;") then "'" + Unescape(s[6..])
    else [s[0]] + Unescape(s[1..])
  }

  /** Unescaping one escaped character in front of any text. */
  lemma UnescapeOne(c: char, rest: string)
    ensures Unescape(EscapeChar(c) + rest) == [c] + Unescape(rest)
  {
    var s := EscapeChar(c) + rest;
    if c == '&' {
      EntityPrefix("&amp;", rest);
    } else if c == '<' {
      EntityPrefix("&lt;", rest);
      assert !StartsWith(s, "&amp;") by { assert s[1] == 'l'; }
    } else if c == '>' {
      EntityPrefix("&gt;", rest);
      assert !StartsWith(s, "&amp;") && !StartsWith(s, "&lt;") by { assert s[1] == 'g'; }
    } else if c == '"' {
      EntityPrefix("&quot;", rest);
      assert !StartsWith(s, "&amp;") && !StartsWith(s, "&lt;") && !StartsWith(s, "&gt;") by { assert s[1] == 'q'; }
    } else if c == '\'' {
      EntityPrefix("&#x27;", rest);
      assert !StartsWith(s, "&amp;") && !StartsWith(s, "&lt;") && !StartsWith(s, "&gt;")
        && !StartsWith(s, "&quot;") by { assert s[1] == '#'; }
    } else {
      assert s[0] == c && s[1..] == rest;
    }
  }

  /** An entity in front of any text: the text starts with it, and what follows is the rest. */
  lemma EntityPrefix(e: string, rest: string)
    requires e != [] && e[0] == '&'
    ensures StartsWith(e + rest, e) && (e + rest)[|e|..] == rest
    ensures (e + rest)[0] == '&' && (|e| > 1 ==> (e + rest)[1] == e[1])
  {
    var s := e + rest;
    assert s[..|e|] == e;
  }

  /** Escaping loses nothing: `Unescape` recovers the original text. */
  lemma {:induction false} UnescapeEscape(s: string)
    ensures Unescape(Escape(s)) == s
  {
    if s != [] {
      UnescapeEscape(s[1..]);
      UnescapeOne(s[0], Escape(s[1..]));
    }
  }

  /** The bodies of the `<p ...>...</p>` elements of `s`, left to right, as
      `re.findall(r'<p[^>]*>(.*?)</p>', s, re.DOTALL)` finds them. */
  function Paragraphs(s: string): (r: seq<string>)
    ensures forall i | 0 <= i < |r| :: !Contains(r[i], "</p>")
    decreases |s|
  {
    if |s| < 2 then []
    else if s[..2] == "<p" && MatchAt(s).Found? then
      var m := MatchAt(s);
      MatchAtNoClose(s);
      [m.body] + Paragraphs(s[m.next..])
    else Paragraphs(s[1..])
  }

  /** A match of the paragraph pattern: its captured body, and where the scan resumes. */
  datatype Match = NoMatch | Found(body: string, next: nat)

  /** The match of the pattern that starts at the `<p` opening `s`, if any: the body, up to
      the first `</p>` after the attributes' `>`, and the index where the scan resumes. */
  function MatchAt(s: string): (r: Match)
    requires |s| >= 2 && s[..2] == "<p"
    ensures r.Found? ==> 2 < r.next <= |s|
  {
    match IndexOfChar(s[2..], '>')
      case None => NoMatch
      case Some(j) =>
        var body := s[3 + j..];
        match IndexOf(body, "</p>")
          case None => NoMatch
          case Some(k) => Found(body[..k], 3 + j + k + 4)
  }

  /** The body of a match holds no `</p>`: the match ends at the first one. */
  lemma MatchAtNoClose(s: string)
    requires |s| >= 2 && s[..2] == "<p" && MatchAt(s).Found?
    ensures !Contains(MatchAt(s).body, "</p>")
  {
    var j := IndexOfChar(s[2..], '>').value;
    var body := s[3 + j..];
    var k := IndexOf(body, "</p>").value;
    BeforeFirstOccurrence(body, "</p>", k);
  }

  /** The text before the first occurrence of `t` does not contain `t`. */
  lemma BeforeFirstOccurrence(s: string, t: string, k: nat)
    requires k <= |s| && t != []
    requires forall j | 0 <= j < k :: !StartsWith(s[j..], t)
    ensures !Contains(s[..k], t)
  {
    forall i | 0 <= i <= k
      ensures !StartsWith(s[..k][i..], t)
    {
      if i + |t| <= k {
        assert s[..k][i..][..|t|] == s[i..][..|t|];
      }
    }
  }

  lemma IndexOfCharAt(s: string, c: char, k: nat)
    requires k < |s| && s[k] == c && c !in s[..k]
    ensures IndexOfChar(s, c) == Some(k)
  {
  }

  lemma IndexOfAt(s: string, t: string, k: nat)
    requires k <= |s| && StartsWith(s[k..], t)
    requires forall j | 0 <= j < k :: !StartsWith(s[j..], t)
    ensures IndexOf(s, t) == Some(k)
  {
    assert Contains(s, t);
  }

  /** The first `</p>` after a body free of it is the one right after the body. */
  lemma CloseAfterBody(b: string, rest: string)
    requires !Contains(b, "</p>")
    ensures IndexOf(b + "</p>" + rest, "</p>") == Some(|b|)
  {
    var u := b + "</p>" + rest;
    forall j | 0 <= j < |b|
      ensures !StartsWith(u[j..], "</p>")
    {
      if j + 4 <= |b| {
        if StartsWith(u[j..], "</p>") {
          assert b[j..j + 4] == u[j..][..4];
          ContainsAt(b, "</p>", j);
        }
      } else {
        assert u[j..][|b| - j] == u[|b|] == '<';
      }
    }
    assert u[|b|..][..4] == "</p>";
    IndexOfAt(u, "</p>", |b|);
  }

  /** A text without `<p` holds no paragraph. */
  lemma {:induction false} NoOpenerNoParagraphs(s: string)
    requires !Contains(s, "<p")
    ensures Paragraphs(s) == []
    decreases |s|
  {
    if |s| >= 2 {
      if s[..2] == "<p" {
        assert StartsWith(s[0..], "<p");
      }
      if Contains(s[1..], "<p") {
        ContainsInSuffix(s, 1, "<p");
      }
      NoOpenerNoParagraphs(s[1..]);
    }
  }

  /** A `<p ...>body</p>` element. */
  function Element(attrs: string, body: string): string {
    "<p" + attrs + ">" + body + "</p>"
  }

  /** A character other than `<` starts no match. */
  lemma ParagraphsSkip(c: char, s: string)
    requires c != '<'
    ensures Paragraphs([c] + s) == Paragraphs(s)
  {
    var t := [c] + s;
    assert t[1..] == s;
    if |t| >= 2 {
      assert t[..2][0] == c;
      assert t[..2] != "<p";
    }
  }

  /** The attributes of an opener run to its first `>`. */
  lemma {:induction false} OpenerEnd(attrs: string, body: string)
    requires '>' !in attrs
    ensures IndexOfChar(attrs + ">" + body, '>') == Some(|attrs|)
  {
    var tail := attrs + ">" + body;
    assert tail[..|attrs|] == attrs;
    IndexOfCharAt(tail, '>', |attrs|);
  }

  /** The match at an element followed by more text is the element's body, and the scan
      resumes right after its `</p>`. */
  lemma {:induction false} MatchAtElement(attrs: string, b: string, rest: string)
    requires '>' !in attrs && !Contains(b, "</p>")
    ensures var m := Element(attrs, b) + rest;
      && |m| >= 2 && m[..2] == "<p" && MatchAt(m).Found?
      && MatchAt(m).body == b && MatchAt(m).next == |m| - |rest|
  {
    var body := b + "</p>" + rest;
    var m := Element(attrs, b) + rest;
    assert m[..2] == "<p" && m[2..] == attrs + ">" + body && m[3 + |attrs|..] == body by {
      assert m == "<p" + (attrs + ">" + body);
    }
    assert IndexOfChar(m[2..], '>') == Some(|attrs|) by {
      OpenerEnd(attrs, body);
    }
    assert IndexOf(m[3 + |attrs|..], "</p>") == Some(|b|) by {
      CloseAfterBody(b, rest);
    }
    assert body[..|b|] == b;
    MatchAtIs(m, |attrs|, |b|);
  }

  /** The match at an opener whose `>` and `</p>` are found. */
  lemma {:induction false} MatchAtIs(s: string, j: nat, k: nat)
    requires |s| >= 2 && s[..2] == "<p" && IndexOfChar(s[2..], '>') == Some(j)
    requires IndexOf(s[3 + j..], "</p>") == Some(k)
    ensures MatchAt(s).Found? && MatchAt(s).body == s[3 + j..][..k] && MatchAt(s).next == 3 + j + k + 4
  {
  }

  /** At an opener, the body runs to the first `</p>`, and the search resumes after it. */
  lemma {:induction false} ParagraphsAtOpener(attrs: string, b: string, rest: string)
    requires '>' !in attrs && !Contains(b, "</p>")
    ensures Paragraphs(Element(attrs, b) + rest) == [b] + Paragraphs(rest)
  {
    var m := Element(attrs, b) + rest;
    MatchAtElement(attrs, b, rest);
    assert m[|m| - |rest|..] == rest;
  }

  /** `findall` is leftmost and non-overlapping: after text without `<`, the first element's
      body is the first result, and the search resumes after its `</p>`. */
  lemma {:induction false} ParagraphsFirst(pre: string, attrs: string, b: string, rest: string)
    requires '<' !in pre && '>' !in attrs && !Contains(b, "</p>")
    ensures Paragraphs(pre + Element(attrs, b) + rest) == [b] + Paragraphs(rest)
    decreases |pre|
  {
    if pre == [] {
      assert pre + Element(attrs, b) + rest == Element(attrs, b) + rest;
      ParagraphsAtOpener(attrs, b, rest);
    } else {
      var tail := pre[1..] + Element(attrs, b) + rest;
      assert pre + Element(attrs, b) + rest == [pre[0]] + tail;
      ParagraphsSkip(pre[0], tail);
      ParagraphsFirst(pre[1..], attrs, b, rest);
    }
  }

  /** A `<` not followed by `p` starts no match either, so the scan moves past it. */
  lemma ParagraphsSkipAngle(c: char, s: string)
    requires c != 'p'
    ensures Paragraphs(['<', c] + s) == Paragraphs([c] + s)
  {
    var t := ['<', c] + s;
    assert t[1..] == [c] + s;
    assert t[..2][1] == c;
  }

  /** Leftmost matching over any prefix free of `<p`: the first element after it gives the
      first result, and the search resumes after its `</p>`. */
  lemma {:induction false} ParagraphsLeftmost(pre: string, attrs: string, b: string, rest: string)
    requires !Contains(pre, "<p") && '>' !in attrs && !Contains(b, "</p>")
    ensures Paragraphs(pre + Element(attrs, b) + rest) == [b] + Paragraphs(rest)
    decreases |pre|
  {
    if pre == [] {
      assert pre + Element(attrs, b) + rest == Element(attrs, b) + rest;
      ParagraphsAtOpener(attrs, b, rest);
    } else {
      var tail := pre[1..] + Element(attrs, b) + rest;
      assert pre + Element(attrs, b) + rest == [pre[0]] + tail;
      if Contains(pre[1..], "<p") {
        ContainsInSuffix(pre, 1, "<p");
      }
      if pre[0] == '<' {
        var c := tail[0];
        if |pre| >= 2 {
          assert c == pre[1];
          if c == 'p' {
            ContainsAt(pre, "<p", 0);
          }
        } else {
          assert c == '<';
        }
        assert [pre[0]] + tail == ['<', c] + tail[1..];
        ParagraphsSkipAngle(c, tail[1..]);
        assert [c] + tail[1..] == tail;
      } else {
        ParagraphsSkip(pre[0], tail);
      }
      ParagraphsLeftmost(pre[1..], attrs, b, rest);
    }
  }

  /** The tooltip cleaning of the Telegram log handler: tags removed, then escaped. */
  function CleanHtmlTags(text: string): (r: string)
    ensures '<' !in r && '>' !in r
  {
    Escape(StripTags(text))
  }

  /** Text without any markup character survives cleaning unchanged (after unescaping). */
  lemma CleanHtmlTagsPlain(text: string)
    requires '<' !in text
    ensures Unescape(CleanHtmlTags(text)) == text
  {
    UnescapeEscape(text);
  }
}

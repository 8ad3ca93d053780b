/** `escapeHtml` of main.ts: three successive global replacements, `&` first,
    then `<`, then `>`; and the entity decoding that undoes it. */
module Escape {
  import opened Strings

  /** `s.replace(/c/g, rep)` for a one-character pattern. */
  function ReplaceAll(s: string, c: char, rep: string): string
  {
    if s == [] then []
    else (if s[0] == c then rep else [s[0]]) + ReplaceAll(s[1..], c, rep)
  }

  /** The escaping exactly as main.ts writes it. */
  function EscapeHtml(s: string): (r: string)
    ensures '<' !in r && '>' !in r
  {
    var r1 := ReplaceAll(s, '&', "&amp;");
    var r2 := ReplaceAll(r1, '<', "&lt;");
    ReplaceAllWithout(r1, '<', "&lt;", '<');
    ReplaceAllWithout(r2, '>', "&gt;", '<');
    ReplaceAllWithout(r2, '>', "&gt;", '>');
    ReplaceAll(r2, '>', "&gt;")
  }

  /** A character absent from the replacement is absent from the result when
      it is the one replaced or was absent to begin with. */
  lemma {:induction false} ReplaceAllWithout(s: string, c: char, rep: string, x: char)
    requires x !in rep && (x == c || x !in s)
    ensures x !in ReplaceAll(s, c, rep)
    decreases |s|
  {
    if s != [] {
      assert x !in s[1..] || x == c;
      ReplaceAllWithout(s[1..], c, rep, x);
    }
  }

  /** Reference definition: each character escaped on its own, in one pass. */
  function EscapeChar(c: char): string
  {
    if c == '&' then "&amp;"
    else if c == '<' then "&lt;"
    else if c == '>' then "&gt;"
    else [c]
  }

  function EscapeByChar(s: string): string
  {
    if s == [] then [] else EscapeChar(s[0]) + EscapeByChar(s[1..])
  }

  /** Decoding of the three entities that `EscapeHtml` produces, as the
      browser does when the markup is assigned to `innerHTML`. */
  function Unescape(s: string): string
  {
    if s == [] then []
    else if StartsWith(s, "&amp;") then ['&'] + Unescape(s[5..])
    else if StartsWith(s, "&lt;") then ['<'] + Unescape(s[4..])
    else if StartsWith(s, "&gt;") then ['>'] + Unescape(s[4..])
    else [s[0]] + Unescape(s[1..])
  }

  lemma {:induction false} ReplaceAllConcat(a: string, b: string, c: char, rep: string)
    ensures ReplaceAll(a + b, c, rep) == ReplaceAll(a, c, rep) + ReplaceAll(b, c, rep)
    decreases |a|
  {
    if a == [] {
      assert a + b == b;
    } else {
      assert (a + b)[0] == a[0];
      assert (a + b)[1..] == a[1..] + b;
      ReplaceAllConcat(a[1..], b, c, rep);
    }
  }

  lemma {:induction false} ReplaceAllAbsent(s: string, c: char, rep: string)
    requires c !in s
    ensures ReplaceAll(s, c, rep) == s
    decreases |s|
  {
    if s != [] {
      ReplaceAllAbsent(s[1..], c, rep);
      assert s == [s[0]] + s[1..];
    }
  }

  /** The three passes distribute over concatenation. */
  lemma EscapeHtmlConcat(a: string, b: string)
    ensures EscapeHtml(a + b) == EscapeHtml(a) + EscapeHtml(b)
  {
    var a1, b1 := ReplaceAll(a, '&', "&amp;"), ReplaceAll(b, '&', "&amp;");
    ReplaceAllConcat(a, b, '&', "&amp;");
    var a2, b2 := ReplaceAll(a1, '<', "&lt;"), ReplaceAll(b1, '<', "&lt;");
    ReplaceAllConcat(a1, b1, '<', "&lt;");
    ReplaceAllConcat(a2, b2, '>', "&gt;");
  }

  /** A separator that escaping leaves alone stays between the escaped parts. */
  lemma EscapeHtmlAround(a: string, sep: string, b: string)
    requires EscapeHtml(sep) == sep
    ensures EscapeHtml(a + sep + b) == EscapeHtml(a) + (sep + EscapeHtml(b))
  {
    assert a + sep + b == a + (sep + b);
    EscapeHtmlConcat(a, sep + b);
    EscapeHtmlConcat(sep, b);
  }

  /** A pass over a single character replaces it or keeps it. */
  lemma ReplaceAllSingle(c: char, d: char, rep: string)
    ensures ReplaceAll([c], d, rep) == if c == d then rep else [c]
  {
    assert [c][1..] == [];
    assert ReplaceAll([], d, rep) == [];
    assert ReplaceAll([c], d, rep) == (if c == d then rep else [c]) + [];
  }

  /** On a single character the three passes give that character's escape:
      an `&` introduced by the first pass is never touched again. */
  lemma EscapeHtmlChar(c: char)
    ensures EscapeHtml([c]) == EscapeChar(c)
  {
    if c == '&' {
      EscapeHtmlAmpersand();
    } else if c == '<' {
      EscapeHtmlLess();
    } else if c == '>' {
      EscapeHtmlGreater();
    } else {
      EscapeHtmlPlain(c);
    }
  }

  lemma EscapeHtmlAmpersand()
    ensures EscapeHtml("&") == "&amp;"
  {
    ReplaceAllSingle('&', '&', "&amp;");
    LaterPassesKeep(ReplaceAll("&", '&', "&amp;"));
  }

  /** The `<` and `>` passes leave text without those characters alone. */
  lemma LaterPassesKeep(s: string)
    requires '<' !in s && '>' !in s
    ensures ReplaceAll(ReplaceAll(s, '<', "&lt;"), '>', "&gt;") == s
  {
    ReplaceAllAbsent(s, '<', "&lt;");
    ReplaceAllAbsent(s, '>', "&gt;");
  }

  lemma EscapeHtmlLess()
    ensures EscapeHtml("<") == "&lt;"
  {
    ReplaceAllSingle('<', '&', "&amp;");
    ReplaceAllSingle('<', '<', "&lt;");
    ReplaceAllAbsent("&lt;", '>', "&gt;");
  }

  lemma EscapeHtmlGreater()
    ensures EscapeHtml(">") == "&gt;"
  {
    ReplaceAllSingle('>', '&', "&amp;");
    ReplaceAllSingle('>', '<', "&lt;");
    ReplaceAllSingle('>', '>', "&gt;");
  }

  lemma EscapeHtmlPlain(c: char)
    requires c != '&' && c != '<' && c != '>'
    ensures EscapeHtml([c]) == [c]
  {
    ReplaceAllSingle(c, '&', "&amp;");
    ReplaceAllSingle(c, '<', "&lt;");
    ReplaceAllSingle(c, '>', "&gt;");
  }

  /** The source's three-pass escaping equals one-pass, per-character escaping. */
  lemma {:induction false} EscapeHtmlIsByChar(s: string)
    ensures EscapeHtml(s) == EscapeByChar(s)
    decreases |s|
  {
    if s == [] {
      assert ReplaceAll([], '&', "&amp;") == [];
    } else {
      assert s == [s[0]] + s[1..];
      EscapeHtmlConcat([s[0]], s[1..]);
      EscapeHtmlChar(s[0]);
      EscapeHtmlIsByChar(s[1..]);
    }
  }

  /** Decoding consumes exactly one character's escape from the front. */
  lemma UnescapeStep(c: char, t: string)
    ensures Unescape(EscapeChar(c) + t) == [c] + Unescape(t)
  {
    var e := EscapeChar(c) + t;
    assert e[|EscapeChar(c)|..] == t;
    if c == '&' {
      assert StartsWith(e, "&amp;");
    } else if c == '<' {
      assert !StartsWith(e, "&amp;") by { assert e[1] == 'l'; }
      assert StartsWith(e, "&lt;");
    } else if c == '>' {
      assert !StartsWith(e, "&amp;") by { assert e[1] == 'g'; }
      assert !StartsWith(e, "&lt;") by { assert e[1] == 'g'; }
      assert StartsWith(e, "&gt;");
    } else {
      assert e[0] == c;
      assert !StartsWith(e, "&amp;") && !StartsWith(e, "&lt;") && !StartsWith(e, "&gt;");
    }
  }

  lemma {:induction false} UnescapeByChar(s: string)
    ensures Unescape(EscapeByChar(s)) == s
    decreases |s|
  {
    if s != [] {
      UnescapeStep(s[0], EscapeByChar(s[1..]));
      UnescapeByChar(s[1..]);
      assert s == [s[0]] + s[1..];
    }
  }

  /** Round trip: decoding the escaped text gives back the text exactly, so
      nothing is escaped twice and nothing is lost. */
  lemma EscapeRoundTrip(s: string)
    ensures Unescape(EscapeHtml(s)) == s
  {
    EscapeHtmlIsByChar(s);
    UnescapeByChar(s);
  }

  lemma EscapeHtmlNewline()
    ensures EscapeHtml("\n") == "\n"
  {
    EscapeHtmlChar('\n');
  }

  /** The empty text escapes to itself. */
  lemma EscapeHtmlEmpty()
    ensures EscapeHtml("") == ""
  {
    assert ReplaceAll([], '&', "&amp;") == [];
  }

  /** The escaped text holds a line feed exactly when the text does. */
  lemma EscapeNewline(s: string)
    ensures '\n' in EscapeHtml(s) <==> '\n' in s
  {
    EscapeHtmlIsByChar(s);
    EscapeByCharNewline(s);
  }

  lemma {:induction false} EscapeByCharNewline(s: string)
    ensures '\n' in EscapeByChar(s) <==> '\n' in s
    decreases |s|
  {
    if s != [] {
      EscapeByCharNewline(s[1..]);
      assert s == [s[0]] + s[1..];
    }
  }
}

/** The per-line renderer of the `dirtree` code-block processor in main.ts:
    the connector pattern, the annotation split, the directory test and the
    spans each line turns into. */
module LineRender {
  import opened Wrappers
  import opened Strings
  import opened Escape

  // ---------------------------------------------------------------------------
  // The connector pattern  ^([│┃|　 ]*[├└┣┗+]*[─━-]*)(.*)$

  /** The characters that `.` does not match: a line containing one makes
      the pattern fail. */
  predicate IsLineTerminator(c: char)
  {
    c == '\n' || c == '\r' || c == '\U{2028}' || c == '\U{2029}'
  }

  /** The three character classes of the connector group, in pattern order. */
  datatype CharClass = Vertical | Branch | Fill

  predicate InClass(c: char, k: CharClass)
  {
    match k
    case Vertical => c == '\U{2502}' || c == '\U{2503}' || c == '|' || c == '\U{3000}' || c == ' '
    case Branch => c == '\U{251C}' || c == '\U{2514}' || c == '\U{2523}' || c == '\U{2517}' || c == '+'
    case Fill => c == '\U{2500}' || c == '\U{2501}' || c == '-'
  }

  /** Every character of `s` from index `lo` up to (excluding) `hi` is in class `k`. */
  predicate AllIn(s: string, lo: int, hi: int, k: CharClass)
    requires 0 <= lo <= hi <= |s|
  {
    forall t :: lo <= t < hi ==> InClass(s[t], k)
  }

  /** The first `n` characters of `line` are in the language of the
      connector group: some characters of the first class, then some of the
      second, then some of the third. */
  ghost predicate ConnectorPrefix(line: string, n: int)
  {
    exists i, j :: 0 <= i <= j <= n <= |line| && AllIn(line, 0, i, Vertical) && AllIn(line, i, j, Branch) && AllIn(line, j, n, Fill)
  }

  /** Greedy `[k]*` from index `from`: the end of the longest run of
      characters of class `k` that starts there. */
  function RunEnd(s: string, from: nat, k: CharClass): (e: nat)
    requires from <= |s|
    ensures from <= e <= |s|
    ensures AllIn(s, from, e, k)
    ensures e == |s| || !InClass(s[e], k)
    decreases |s| - from
  {
    if from == |s| || !InClass(s[from], k) then from else RunEnd(s, from + 1, k)
  }

  /** Length of the connector group: the three greedy runs one after another. */
  function ConnectorLength(line: string): (n: nat)
    ensures n <= |line|
  {
    var a := RunEnd(line, 0, Vertical);
    var b := RunEnd(line, a, Branch);
    RunEnd(line, b, Fill)
  }

  /** The two capture groups of a successful match. */
  datatype LineMatch = LineMatch(connector: string, rest: string)

  /** `line.match(...)`: fails exactly when the line holds a line terminator
      (`.` cannot cover it and none of the connector classes contains one);
      otherwise the connector group is the greedy one and the rest is `.*`. */
  function MatchLine(line: string): (m: Option<LineMatch>)
    ensures m.None? <==> exists i :: 0 <= i < |line| && IsLineTerminator(line[i])
    ensures m.Some? ==> m.value.connector + m.value.rest == line
  {
    if exists i :: 0 <= i < |line| && IsLineTerminator(line[i]) then None
    else
      var n := ConnectorLength(line);
      assert line[..n] + line[n..] == line;
      Some(LineMatch(line[..n], line[n..]))
  }

  /** The connector of a match is a prefix in the connector language, and it
      is the longest such prefix of the line: the greedy choice. */
  lemma MatchLineGreedy(line: string)
    requires MatchLine(line).Some?
    ensures ConnectorPrefix(line, |MatchLine(line).value.connector|)
    ensures forall k :: ConnectorPrefix(line, k) ==> k <= |MatchLine(line).value.connector|
  {
    var a := RunEnd(line, 0, Vertical);
    var b := RunEnd(line, a, Branch);
    var n := RunEnd(line, b, Fill);
    assert |MatchLine(line).value.connector| == n;
    assert ConnectorPrefix(line, n);
    forall k | ConnectorPrefix(line, k)
      ensures k <= n
    {
      var i, j :| 0 <= i <= j <= k <= |line| && AllIn(line, 0, i, Vertical) && AllIn(line, i, j, Branch) && AllIn(line, j, k, Fill);
      WithinGreedy(line, k, i, j);
    }
  }

  /** A pattern split of a prefix cannot reach past the greedy connector: its
      boundaries can only be the greedy ones, or the prefix ends earlier. */
  lemma WithinGreedy(line: string, k: nat, i: nat, j: nat)
    requires i <= j <= k <= |line|
    requires AllIn(line, 0, i, Vertical) && AllIn(line, i, j, Branch) && AllIn(line, j, k, Fill)
    ensures k <= ConnectorLength(line)
  {
    var a := RunEnd(line, 0, Vertical);
    var b := RunEnd(line, a, Branch);
    var n := RunEnd(line, b, Fill);
    assert i <= a;
    if a < k {
      if i < k {
        assert InClass(line[i], if i < j then Branch else Fill);
      }
      assert i == a;
      assert j <= b;
      if b < k {
        if j < k {
          assert InClass(line[j], Fill);
        }
        assert j == b;
        assert k <= n;
      }
    }
  }

  /** The match succeeds exactly when the line is in the language of the
      whole pattern: a prefix in the connector language, followed by a rest
      that `.*` can cover, that is, one without a line terminator. */
  lemma MatchIffLanguage(line: string)
    ensures MatchLine(line).Some? <==>
      exists n :: ConnectorPrefix(line, n) && forall t :: n <= t < |line| ==> !IsLineTerminator(line[t])
  {
    if MatchLine(line).Some? {
      MatchLineGreedy(line);
      var n := |MatchLine(line).value.connector|;
      assert ConnectorPrefix(line, n) && forall t :: n <= t < |line| ==> !IsLineTerminator(line[t]);
    }
    if exists n :: ConnectorPrefix(line, n) && forall t :: n <= t < |line| ==> !IsLineTerminator(line[t]) {
      var n :| ConnectorPrefix(line, n) && forall t :: n <= t < |line| ==> !IsLineTerminator(line[t]);
      ConnectorHasNoTerminator(line, n);
      assert forall t :: 0 <= t < |line| ==> !IsLineTerminator(line[t]) by {
        forall t | 0 <= t < |line|
          ensures !IsLineTerminator(line[t])
        {
          if t >= n {
            assert n <= t < |line|;
          }
        }
      }
    }
  }

  /** No connector class holds a line terminator, so neither does a prefix
      in the connector language. */
  lemma ConnectorHasNoTerminator(line: string, n: int)
    requires ConnectorPrefix(line, n)
    ensures forall t :: 0 <= t < n ==> !IsLineTerminator(line[t])
  {
    var i, j :| 0 <= i <= j <= n <= |line| && AllIn(line, 0, i, Vertical) && AllIn(line, i, j, Branch) && AllIn(line, j, n, Fill);
    forall t | 0 <= t < n
      ensures !IsLineTerminator(line[t])
    {
      if t < i {
        assert InClass(line[t], Vertical);
      } else if t < j {
        assert InClass(line[t], Branch);
      } else {
        assert InClass(line[t], Fill);
      }
    }
  }

  // ---------------------------------------------------------------------------
  // Name and annotation

  /** Space, em dash, space. */
  const AnnotationDelimiter: string := " \U{2014} "

  /** Cut the rest at the first delimiter: the part before it is the name,
      the part from it onwards the annotation. */
  function SplitAnnotation(rest: string): (r: (string, string))
    ensures r.0 + r.1 == rest
    ensures forall j :: 0 <= j < |r.0| ==> !OccursAt(rest, AnnotationDelimiter, j)
    ensures Contains(rest, AnnotationDelimiter) ==> StartsWith(r.1, AnnotationDelimiter)
    ensures !Contains(rest, AnnotationDelimiter) ==> r.1 == ""
  {
    var i := IndexOf(rest, AnnotationDelimiter);
    if i != -1 then
      assert rest[..i] + rest[i..] == rest;
      (rest[..i], rest[i..])
    else
      (rest, "")
  }

  /** The name never contains the delimiter. */
  lemma NameHasNoDelimiter(rest: string)
    ensures !Contains(SplitAnnotation(rest).0, AnnotationDelimiter)
  {
    var name := SplitAnnotation(rest).0;
    var d := AnnotationDelimiter;
    forall j | 0 <= j <= |name| && OccursAt(name, d, j)
      ensures false
    {
      assert name == rest[..|name|];
      assert name[j..j + |d|] == rest[j..j + |d|];
      assert OccursAt(rest, d, j);
    }
  }

  // ---------------------------------------------------------------------------
  // Directory or file

  /** The characters JavaScript's `\s` matches. */
  predicate IsJsWhitespace(c: char)
  {
    c == '\t' || c == '\n' || c == '\U{000B}' || c == '\U{000C}' || c == '\r' || c == ' '
    || c == '\U{00A0}' || c == '\U{1680}' || ('\U{2000}' <= c <= '\U{200A}')
    || c == '\U{2028}' || c == '\U{2029}' || c == '\U{202F}' || c == '\U{205F}'
    || c == '\U{3000}' || c == '\U{FEFF}'
  }

  /** The name with its leading run of `\s` characters removed. */
  function TrimStart(s: string): (t: string)
    ensures |t| <= |s| && t == s[|s| - |t|..]
    ensures forall i :: 0 <= i < |s| - |t| ==> IsJsWhitespace(s[i])
    ensures t == [] || !IsJsWhitespace(t[0])
  {
    if s != [] && IsJsWhitespace(s[0]) then
      var t := TrimStart(s[1..]);
      assert forall i :: 1 <= i < |s| - |t| ==> s[i] == s[1..][i - 1];
      t
    else s
  }

  /** A name denotes a directory when, once trimmed, it starts with a slash. */
  predicate IsDirectoryName(name: string)
  {
    StartsWith(TrimStart(name), "/")
  }

  /** A name is a directory exactly when its first character that is not
      whitespace is a slash. */
  lemma IsDirectoryNameIff(name: string)
    ensures IsDirectoryName(name) <==>
      exists i :: 0 <= i < |name| && name[i] == '/' && forall j :: 0 <= j < i ==> IsJsWhitespace(name[j])
  {
    if IsDirectoryName(name) {
      DirectorySlash(name);
    }
    if exists i :: 0 <= i < |name| && name[i] == '/' && forall j :: 0 <= j < i ==> IsJsWhitespace(name[j]) {
      var i :| 0 <= i < |name| && name[i] == '/' && forall j :: 0 <= j < i ==> IsJsWhitespace(name[j]);
      SlashDirectory(name, i);
    }
  }

  /** A directory name's slash comes right after its leading whitespace. */
  lemma DirectorySlash(name: string)
    requires IsDirectoryName(name)
    ensures var k := |name| - |TrimStart(name)|;
      k < |name| && name[k] == '/' && forall j :: 0 <= j < k ==> IsJsWhitespace(name[j])
  {
    var t := TrimStart(name);
    assert t[..1] == "/";
    assert name[|name| - |t|] == t[0];
  }

  /** A slash after nothing but whitespace makes a directory name. */
  lemma SlashDirectory(name: string, i: nat)
    requires i < |name| && name[i] == '/'
    requires forall j :: 0 <= j < i ==> IsJsWhitespace(name[j])
    ensures IsDirectoryName(name)
  {
    TrimStartAt(name, i);
    var t := TrimStart(name);
    assert t[0] == '/';
    assert t[..1] == [t[0]];
  }

  /** Trimming stops at the first character that is not whitespace. */
  lemma {:induction false} TrimStartAt(name: string, i: nat)
    requires i < |name| && !IsJsWhitespace(name[i])
    requires forall j :: 0 <= j < i ==> IsJsWhitespace(name[j])
    ensures TrimStart(name) == name[i..]
    decreases i
  {
    if i > 0 {
      assert IsJsWhitespace(name[0]);
      TrimStartAt(name[1..], i - 1);
      assert name[1..][i - 1..] == name[i..];
    }
  }

  /** In particular an empty or all-whitespace name is a file. */
  lemma BlankNameIsFile(name: string)
    requires forall i :: 0 <= i < |name| ==> IsJsWhitespace(name[i])
    ensures !IsDirectoryName(name)
  {
    IsDirectoryNameIff(name);
  }

  /** A branch line: the spaces after the branch are not in any connector
      class that may follow the branch characters, so they start the name;
      the name is still a directory, because it is trimmed before the test. */
  lemma BranchLineSplit()
    ensures MatchLine("\U{251C}\U{2500}\U{2500} /src") == Some(LineMatch("\U{251C}\U{2500}\U{2500}", " /src"))
    ensures NameKind(" /src") == DirSpan
  {
    var line := "\U{251C}\U{2500}\U{2500} /src";
    BranchLineConnector(line);
    assert line[..3] == "\U{251C}\U{2500}\U{2500}" && line[3..] == " /src";
    IndentedSlashIsDirectory();
  }

  /** A name of one space and then a slash is a directory name. */
  lemma IndentedSlashIsDirectory()
    ensures NameKind(" /src") == DirSpan
  {
    var name := " /src";
    assert IsJsWhitespace(name[0]) && name[1] == '/';
    IsDirectoryNameIff(name);
  }

  /** The greedy connector of the branch line is its first three characters. */
  lemma BranchLineConnector(line: string)
    requires line == "\U{251C}\U{2500}\U{2500} /src"
    ensures MatchLine(line) == Some(LineMatch(line[..3], line[3..]))
  {
    assert forall i :: 0 <= i < |line| ==> !IsLineTerminator(line[i]);
    assert !InClass(line[0], Vertical);
    assert InClass(line[0], Branch) && !InClass(line[1], Branch);
    assert InClass(line[1], Fill) && InClass(line[2], Fill) && !InClass(line[3], Fill);
    assert RunEnd(line, 1, Fill) == RunEnd(line, 2, Fill) == RunEnd(line, 3, Fill) == 3;
    assert ConnectorLength(line) == 3;
  }

  // ---------------------------------------------------------------------------
  // Spans

  datatype SpanKind = ConnectorSpan | DirSpan | FileSpan | AnnotationSpan

  /** A segment of a line and the span it goes in. */
  datatype Part = Part(kind: SpanKind, text: string)

  /** Position of each kind of span in a rendered line. */
  function Slot(k: SpanKind): nat
  {
    match k
    case ConnectorSpan => 0
    case DirSpan => 1
    case FileSpan => 1
    case AnnotationSpan => 2
  }

  function ClassName(k: SpanKind): string
  {
    match k
    case ConnectorSpan => "dirtree-connector"
    case DirSpan => "dirtree-dir"
    case FileSpan => "dirtree-file"
    case AnnotationSpan => "dirtree-annotation"
  }

  /** The texts of the parts, one after another. */
  function Texts(parts: seq<Part>): string
  {
    if parts == [] then "" else parts[0].text + Texts(parts[1..])
  }

  /** A segment is emitted only when its text is non-empty. */
  function Present(p: Part): seq<Part>
  {
    if p.text == "" then [] else [p]
  }

  /** The span a name goes in: `dir` when it denotes a directory, else `file`. */
  function NameKind(name: string): SpanKind
  {
    if IsDirectoryName(name) then DirSpan else FileSpan
  }

  /** `parts` are the spans pushed for a connector, a name and an annotation:
      at most three, in that order, none empty; each segment's text in the
      span of its kind, and a span exactly for each non-empty segment. */
  predicate SegmentsOf(parts: seq<Part>, connector: string, kind: SpanKind, name: string, annotation: string)
  {
    && |parts| <= 3
    && (forall i, j :: 0 <= i < j < |parts| ==> Slot(parts[i].kind) < Slot(parts[j].kind))
    && (forall i :: 0 <= i < |parts| ==> parts[i].text != "")
    && (forall p :: p in parts && p.kind == ConnectorSpan ==> p.text == connector)
    && (forall p :: p in parts && p.kind in {DirSpan, FileSpan} ==> p == Part(kind, name))
    && (forall p :: p in parts && p.kind == AnnotationSpan ==> p.text == annotation)
    && (Part(ConnectorSpan, connector) in parts <==> connector != "")
    && (Part(kind, name) in parts <==> name != "")
    && (Part(AnnotationSpan, annotation) in parts <==> annotation != "")
  }

  /** The segments of a matched line, in the order they are pushed; with the
      tags left out they are the whole line. */
  function LineParts(m: LineMatch): (parts: seq<Part>)
    ensures var name := SplitAnnotation(m.rest).0;
      SegmentsOf(parts, m.connector, NameKind(name), name, SplitAnnotation(m.rest).1)
    ensures Texts(parts) == m.connector + m.rest
  {
    var split := SplitAnnotation(m.rest);
    var kind := NameKind(split.0);
    SegmentsShape(m.connector, kind, split.0, split.1);
    SegmentsTexts(m.connector, kind, split.0, split.1);
    Segments(m.connector, kind, split.0, split.1)
  }

  /** The non-empty ones of a connector, a name and an annotation, each in
      the span of its kind. */
  function Segments(connector: string, kind: SpanKind, name: string, annotation: string): seq<Part>
  {
    Present(Part(ConnectorSpan, connector)) + Present(Part(kind, name))
      + Present(Part(AnnotationSpan, annotation))
  }

  /** The spans of a connector, a name and an annotation meet `SegmentsOf`. */
  lemma SegmentsShape(connector: string, kind: SpanKind, name: string, annotation: string)
    requires kind in {DirSpan, FileSpan}
    ensures SegmentsOf(Segments(connector, kind, name, annotation), connector, kind, name, annotation)
  {
    var c, n, a := Part(ConnectorSpan, connector), Part(kind, name), Part(AnnotationSpan, annotation);
    var ps := Segments(connector, kind, name, annotation);
    SegmentsOrder(connector, kind, name, annotation);
    SegmentsMembers(connector, kind, name, annotation);
    assert forall i :: 0 <= i < |ps| ==> ps[i] in ps;
  }

  /** Exactly the non-empty segments are present. */
  lemma SegmentsMembers(connector: string, kind: SpanKind, name: string, annotation: string)
    ensures forall p :: p in Segments(connector, kind, name, annotation) <==>
      || (p == Part(ConnectorSpan, connector) && connector != "")
      || (p == Part(kind, name) && name != "")
      || (p == Part(AnnotationSpan, annotation) && annotation != "")
  {
  }

  /** The connector's span comes first, the name's second, the annotation's last. */
  lemma SegmentsOrder(connector: string, kind: SpanKind, name: string, annotation: string)
    requires kind in {DirSpan, FileSpan}
    ensures var parts := Segments(connector, kind, name, annotation);
      forall i, j :: 0 <= i < j < |parts| ==> Slot(parts[i].kind) < Slot(parts[j].kind)
  {
    var c, n, a := Part(ConnectorSpan, connector), Part(kind, name), Part(AnnotationSpan, annotation);
    var ps := Segments(connector, kind, name, annotation);
    if connector == "" {
      if name == "" {
        if annotation == "" { assert ps == []; } else { assert ps == [a]; }
      } else {
        if annotation == "" { assert ps == [n]; } else { assert ps == [n, a]; }
      }
    } else {
      if name == "" {
        if annotation == "" { assert ps == [c]; } else { assert ps == [c, a]; }
      } else {
        if annotation == "" { assert ps == [c, n]; } else { assert ps == [c, n, a]; }
      }
    }
  }

  /** Without their tags the segments are connector, name and annotation. */
  lemma SegmentsTexts(connector: string, kind: SpanKind, name: string, annotation: string)
    ensures Texts(Segments(connector, kind, name, annotation)) == connector + (name + annotation)
  {
    var c, n, a := Part(ConnectorSpan, connector), Part(kind, name), Part(AnnotationSpan, annotation);
    var pc, pn, pa := Present(c), Present(n), Present(a);
    assert pc + pn + pa == pc + (pn + pa);
    TextsConcat(pn, pa);
    TextsConcat(pc, pn + pa);
    TextsPresent(c);
    TextsPresent(n);
    TextsPresent(a);
  }

  lemma TextsPresent(p: Part)
    ensures Texts(Present(p)) == p.text
  {
    if p.text != "" {
      assert Texts([p]) == p.text + Texts([]);
    }
  }

  lemma {:induction false} TextsConcat(xs: seq<Part>, ys: seq<Part>)
    ensures Texts(xs + ys) == Texts(xs) + Texts(ys)
    decreases |xs|
  {
    if xs == [] {
      assert xs + ys == ys;
    } else {
      assert (xs + ys)[1..] == xs[1..] + ys;
      TextsConcat(xs[1..], ys);
    }
  }

  /** Class names are lower-case letters and hyphens, so they hold no
      character that would end the tag or the line. */
  lemma ClassNamePlain(k: SpanKind)
    ensures '>' !in ClassName(k) && '<' !in ClassName(k) && '\n' !in ClassName(k)
  {
    var name := ClassName(k);
    assert forall i :: 0 <= i < |name| ==> 'a' <= name[i] <= 'z' || name[i] == '-';
  }

  /** What goes between `<` and `>` in the opening tag of a span. */
  function OpenTagBody(k: SpanKind): (body: string)
    ensures '>' !in body && '<' !in body && '\n' !in body
  {
    ClassNamePlain(k);
    "span class=\"" + ClassName(k) + "\""
  }

  /** A span element of the segment's class around the segment's escaped text. */
  function SpanMarkup(p: Part): string
  {
    "<" + OpenTagBody(p.kind) + ">" + EscapeHtml(p.text) + "<" + "/span" + ">"
  }

  /** The span strings pushed for the parts, in order. */
  function SpansMarkup(parts: seq<Part>): (spans: seq<string>)
    ensures |spans| == |parts|
  {
    if parts == [] then [] else [SpanMarkup(parts[0])] + SpansMarkup(parts[1..])
  }

  /** `parts.join("")` for the segments of a matched line. */
  function RenderMatch(m: LineMatch): string
  {
    Join(SpansMarkup(LineParts(m)), "")
  }

  /** One line of the tree rendered to markup. */
  function RenderLine(line: string): (html: string)
  {
    match MatchLine(line)
    case None => EscapeHtml(line)
    case Some(m) => RenderMatch(m)
  }

  /** The markup pushed for one segment: its span when the text is non-empty,
      nothing otherwise. */
  function SpanIf(k: SpanKind, text: string): string
  {
    if text == "" then "" else SpanMarkup(Part(k, text))
  }

  /** A matched line renders as the connector's span, then the name's span
      (`dir` or `file`), then the annotation's span, each only when its
      segment is non-empty. */
  lemma RenderLineSpans(line: string)
    requires MatchLine(line).Some?
    ensures var m := MatchLine(line).value;
      var name, annotation := SplitAnnotation(m.rest).0, SplitAnnotation(m.rest).1;
      RenderLine(line) == SpanIf(ConnectorSpan, m.connector) + SpanIf(NameKind(name), name)
                          + SpanIf(AnnotationSpan, annotation)
  {
    var m := MatchLine(line).value;
    var split := SplitAnnotation(m.rest);
    var c, n, a := Part(ConnectorSpan, m.connector), Part(NameKind(split.0), split.0), Part(AnnotationSpan, split.1);
    assert LineParts(m) == Present(c) + Present(n) + Present(a);
    JoinSpansConcat(Present(c) + Present(n), Present(a));
    JoinSpansConcat(Present(c), Present(n));
    JoinSpansPresent(c);
    JoinSpansPresent(n);
    JoinSpansPresent(a);
  }

  /** The spans of two runs of segments are the spans of each run. */
  lemma {:induction false} SpansMarkupConcat(xs: seq<Part>, ys: seq<Part>)
    ensures SpansMarkup(xs + ys) == SpansMarkup(xs) + SpansMarkup(ys)
    decreases |xs|
  {
    if xs == [] {
      assert xs + ys == ys;
    } else {
      assert (xs + ys)[0] == xs[0];
      assert (xs + ys)[1..] == xs[1..] + ys;
      SpansMarkupConcat(xs[1..], ys);
    }
  }

  /** Joining the spans of two runs of segments is joining each run's spans. */
  lemma JoinSpansConcat(xs: seq<Part>, ys: seq<Part>)
    ensures Join(SpansMarkup(xs + ys), "") == Join(SpansMarkup(xs), "") + Join(SpansMarkup(ys), "")
  {
    SpansMarkupConcat(xs, ys);
    ConcatJoin(SpansMarkup(xs), SpansMarkup(ys));
  }

  /** One segment's spans, joined, are its span or nothing. */
  lemma JoinSpansPresent(p: Part)
    ensures Join(SpansMarkup(Present(p)), "") == SpanIf(p.kind, p.text)
  {
    if p.text != "" {
      SpansMarkupCons([p]);
      assert [p][1..] == [];
      assert SpanMarkup(p) + "" == SpanMarkup(p);
    }
  }

  /** A line with a line terminator falls back to the escaped line, untagged. */
  lemma RenderLineFallback(line: string)
    requires exists i :: 0 <= i < |line| && IsLineTerminator(line[i])
    ensures RenderLine(line) == EscapeHtml(line)
    ensures '<' !in RenderLine(line)
  {
  }

  /** An empty line matches with two empty groups, pushes no span, and
      renders to the empty string. */
  lemma EmptyLineRendersEmpty()
    ensures MatchLine("") == Some(LineMatch("", ""))
    ensures LineParts(LineMatch("", "")) == []
    ensures RenderLine("") == ""
  {
    assert MatchLine("") == Some(LineMatch("", ""));
    assert LineParts(LineMatch("", "")) == [];
  }

  // ---------------------------------------------------------------------------
  // What the browser displays: tags dropped, entities decoded

  /** Drop everything up to and including the next `>`. */
  function SkipTag(s: string): (r: string)
    ensures |r| <= |s|
  {
    if s == [] then [] else if s[0] == '>' then s[1..] else SkipTag(s[1..])
  }

  /** Remove every `<...>` tag, keeping the text between tags. */
  function StripTags(s: string): string
    decreases |s|
  {
    if s == [] then []
    else if s[0] == '<' then StripTags(SkipTag(s[1..]))
    else [s[0]] + StripTags(s[1..])
  }

  /** The text a reader sees in the rendered markup. */
  function TextContent(html: string): string
  {
    Unescape(StripTags(html))
  }

  lemma {:induction false} StripTagsText(e: string, x: string)
    requires '<' !in e
    ensures StripTags(e + x) == e + StripTags(x)
    decreases |e|
  {
    if e == [] {
      assert e + x == x;
    } else {
      assert e[0] != '<' && (e + x)[0] == e[0];
      assert (e + x)[1..] == e[1..] + x;
      StripTagsText(e[1..], x);
      assert e == [e[0]] + e[1..];
    }
  }

  lemma {:induction false} SkipTagThrough(u: string, x: string)
    requires '>' !in u
    ensures SkipTag(u + ">" + x) == x
    decreases |u|
  {
    if u == [] {
      assert u + ">" + x == ">" + x;
    } else {
      assert (u + ">" + x)[1..] == u[1..] + ">" + x;
      SkipTagThrough(u[1..], x);
    }
  }

  lemma StripTagsTag(u: string, x: string)
    requires '>' !in u
    ensures StripTags("<" + u + ">" + x) == StripTags(x)
  {
    assert ("<" + u + ">" + x)[1..] == u + ">" + x;
    SkipTagThrough(u, x);
  }

  lemma StripTagsSpan(p: Part, x: string)
    ensures StripTags(SpanMarkup(p) + x) == EscapeHtml(p.text) + StripTags(x)
  {
    var body, e := OpenTagBody(p.kind), EscapeHtml(p.text);
    var close := "<" + "/span" + ">" + x;
    assert SpanMarkup(p) + x == "<" + body + ">" + (e + close);
    StripTagsTag(body, e + close);
    StripTagsText(e, close);
    assert '>' !in "/span";
    StripTagsTag("/span", x);
  }

  lemma SpansMarkupCons(parts: seq<Part>)
    requires |parts| >= 1
    ensures Join(SpansMarkup(parts), "") == SpanMarkup(parts[0]) + Join(SpansMarkup(parts[1..]), "")
  {
    var spans := SpansMarkup(parts);
    assert spans[0] == SpanMarkup(parts[0]) && spans[1..] == SpansMarkup(parts[1..]);
    ConcatCons(spans);
  }

  lemma {:induction false} StripTagsSpans(parts: seq<Part>, x: string)
    ensures StripTags(Join(SpansMarkup(parts), "") + x) == EscapeHtml(Texts(parts)) + StripTags(x)
    decreases |parts|
  {
    if |parts| == 0 {
      EscapeHtmlEmpty();
      assert Join(SpansMarkup(parts), "") + x == x;
    } else {
      var head, tail := SpanMarkup(parts[0]), Join(SpansMarkup(parts[1..]), "");
      SpansMarkupCons(parts);
      StripTagsSpan(parts[0], tail + x);
      StripTagsSpans(parts[1..], x);
      StripTagsStep(head, tail, x, EscapeHtml(parts[0].text), EscapeHtml(Texts(parts[1..])));
      EscapeHtmlConcat(parts[0].text, Texts(parts[1..]));
    }
  }

  lemma StripTagsStep(head: string, tail: string, x: string, e0: string, e1: string)
    requires StripTags(head + (tail + x)) == e0 + StripTags(tail + x)
    requires StripTags(tail + x) == e1 + StripTags(x)
    ensures StripTags(head + tail + x) == (e0 + e1) + StripTags(x)
  {
    assert head + tail + x == head + (tail + x);
  }

  /** Dropping the tags of a rendered line leaves the escaped line, and the
      rest of the document is not disturbed. */
  lemma StripRenderedLine(line: string, x: string)
    ensures StripTags(RenderLine(line) + x) == EscapeHtml(line) + StripTags(x)
  {
    match MatchLine(line)
    case None =>
      StripTagsText(EscapeHtml(line), x);
    case Some(m) =>
      StripRenderedMatch(m, x);
  }

  lemma StripRenderedMatch(m: LineMatch, x: string)
    ensures StripTags(RenderMatch(m) + x) == EscapeHtml(m.connector + m.rest) + StripTags(x)
  {
    var parts := LineParts(m);
    StripTagsSpans(parts, x);
  }

  /** Round trip: the text shown for a rendered line is the line itself;
      the markup only adds tags and never loses or reorders text. */
  lemma RenderLineRoundTrip(line: string)
    ensures TextContent(RenderLine(line)) == line
  {
    var html := RenderLine(line);
    StripRenderedLine(line, "");
    assert html + "" == html;
    assert EscapeHtml(line) + "" == EscapeHtml(line);
    EscapeRoundTrip(line);
  }

  lemma {:induction false} SpansNoNewline(parts: seq<Part>)
    requires '\n' !in Texts(parts)
    ensures '\n' !in Join(SpansMarkup(parts), "")
    decreases |parts|
  {
    if |parts| > 0 {
      var spans := SpansMarkup(parts);
      var p := parts[0];
      EscapeNewline(p.text);
      assert '\n' !in "<" + OpenTagBody(p.kind) + ">";
      assert '\n' !in "<" + "/span" + ">";
      assert '\n' !in SpanMarkup(p);
      if |parts| > 1 {
        assert spans[1..] == SpansMarkup(parts[1..]);
        SpansNoNewline(parts[1..]);
        assert Join(spans, "") == SpanMarkup(p) + "" + Join(spans[1..], "");
      }
    }
  }

  /** Rendering a line adds no line break. */
  lemma RenderLineNoNewline(line: string)
    requires '\n' !in line
    ensures '\n' !in RenderLine(line)
  {
    match MatchLine(line)
    case None =>
      EscapeNewline(line);
    case Some(m) =>
      SpansNoNewline(LineParts(m));
  }
}

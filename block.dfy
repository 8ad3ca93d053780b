/** The whole `dirtree` block: the generator's trees joined by `reduce`,
    split into lines, each line rendered, and the lines joined again. */
module BlockRender {
  import opened Strings
  import opened Escape
  import opened LineRender

  /** The generator's trees folded by `reduce` with no initial value: the
      accumulator starts at the first tree, and each later tree is appended
      after a blank line. Such a `reduce` throws on an empty array, so callers
      must pass at least one tree. */
  function JoinTrees(trees: seq<string>): (plain: string)
    requires |trees| > 0
  {
    ReduceFrom(trees[0], trees, 1)
  }

  /** The fold of `reduce`, from accumulator `prev` and array index `index`. */
  function ReduceFrom(prev: string, trees: seq<string>, index: nat): string
    requires index <= |trees|
    decreases |trees| - index
  {
    if index == |trees| then prev
    else ReduceFrom(prev + (if index != 0 then "\n\n" else "") + trees[index], trees, index + 1)
  }

  lemma {:induction false} ReduceFromJoin(trees: seq<string>, index: nat)
    requires 1 <= index <= |trees|
    ensures ReduceFrom(Join(trees[..index], "\n\n"), trees, index) == Join(trees, "\n\n")
    decreases |trees| - index
  {
    if index == |trees| {
      assert trees[..index] == trees;
    } else {
      assert trees[..index + 1] == trees[..index] + [trees[index]];
      JoinSnoc(trees[..index], trees[index], "\n\n");
      ReduceFromJoin(trees, index + 1);
    }
  }

  /** The reduction is the trees joined with a blank line between
      consecutive ones: `r[0] + "\n\n" + r[1] + ...`. */
  lemma JoinTreesIsJoin(trees: seq<string>)
    requires |trees| > 0
    ensures JoinTrees(trees) == Join(trees, "\n\n")
  {
    assert trees[..1] == [trees[0]];
    ReduceFromJoin(trees, 1);
  }

  /** In lines: each tree after the first adds one empty line and then its
      own lines, in order. */
  lemma TreesSeparatedByBlankLine(trees: seq<string>)
    requires |trees| >= 2
    ensures Split(JoinTrees(trees)) == Split(JoinTrees(trees[..|trees| - 1])) + [""] + Split(trees[|trees| - 1])
  {
    var init, last := trees[..|trees| - 1], trees[|trees| - 1];
    JoinTreesIsJoin(trees);
    JoinTreesIsJoin(init);
    assert trees == init + [last];
    JoinSnoc(init, last, "\n\n");
    var a := Join(init, "\n\n");
    assert a + "\n\n" + last == a + "\n" + ("" + "\n" + last);
    SplitAtNewline(a, "" + "\n" + last);
    SplitAtNewline("", last);
  }

  /** Two one-line trees come out as those two lines with exactly one blank
      line between them. */
  lemma TwoTrees(a: string, b: string)
    requires '\n' !in a && '\n' !in b
    ensures Split(JoinTrees([a, b])) == [a, "", b]
  {
    var t := [a, b];
    TreesSeparatedByBlankLine(t);
    assert t[..1] == [a];
    assert JoinTrees([a]) == a;
    SplitWithoutNewline(a);
    SplitWithoutNewline(b);
  }

  /** Every line of a block rendered on its own. */
  function RenderLines(lines: seq<string>): seq<string>
  {
    seq(|lines|, i requires 0 <= i < |lines| => RenderLine(lines[i]))
  }

  /** Rendering line by line keeps the number of lines, adds no line break
      to any line, and leaves an empty line empty. */
  lemma RenderLinesShape(lines: seq<string>)
    requires forall i :: 0 <= i < |lines| ==> '\n' !in lines[i]
    ensures |RenderLines(lines)| == |lines|
    ensures forall i :: 0 <= i < |lines| ==> '\n' !in RenderLines(lines)[i]
    ensures forall i :: 0 <= i < |lines| && lines[i] == "" ==> RenderLines(lines)[i] == ""
  {
    var out := RenderLines(lines);
    forall i | 0 <= i < |lines| ensures '\n' !in out[i] {
      assert out[i] == RenderLine(lines[i]);
      RenderLineNoNewline(lines[i]);
    }
    forall i | 0 <= i < |lines| && lines[i] == "" ensures out[i] == "" {
      assert out[i] == RenderLine("");
      EmptyLineRendersEmpty();
    }
  }

  /** The block's markup: split at line feeds, render each line, join the
      rendered lines with line feeds again. */
  function RenderBlock(plain: string): string
  {
    Join(RenderLines(Split(plain)), "\n")
  }

  /** The markup assigned to the code element for the generator's trees. */
  function Render(trees: seq<string>): string
    requires |trees| > 0
  {
    RenderBlock(JoinTrees(trees))
  }

  /** Splitting the output at newlines gives the input lines, each rendered:
      the output has as many lines as the plain text and line `i` of the
      output is the rendering of line `i`. */
  lemma RenderBlockLines(plain: string)
    ensures Split(RenderBlock(plain)) == RenderLines(Split(plain))
  {
    RenderLinesShape(Split(plain));
    SplitJoin(RenderLines(Split(plain)));
  }

  lemma {:induction false} StripRenderedLines(lines: seq<string>)
    requires |lines| >= 1
    ensures StripTags(Join(RenderLines(lines), "\n")) == EscapeHtml(Join(lines, "\n"))
    decreases |lines|
  {
    var out := RenderLines(lines);
    if |lines| == 1 {
      StripRenderedLine(lines[0], "");
      StripJoinLast(out[0], lines[0]);
    } else {
      var rest := Join(out[1..], "\n");
      assert out[1..] == RenderLines(lines[1..]);
      StripRenderedLine(lines[0], "\n" + rest);
      StripRenderedLines(lines[1..]);
      StripJoinStep(out[0], "\n", rest, EscapeHtml(lines[0]), EscapeHtml(Join(lines[1..], "\n")));
      EscapeHtmlNewline();
      EscapeHtmlAround(lines[0], "\n", Join(lines[1..], "\n"));
    }
  }

  lemma StripJoinLast(html: string, line: string)
    requires StripTags(html + "") == EscapeHtml(line) + StripTags("")
    ensures StripTags(Join([html], "\n")) == EscapeHtml(Join([line], "\n"))
  {
    assert html + "" == html;
    assert EscapeHtml(line) + "" == EscapeHtml(line);
  }

  /** One more line in front: a separator free of `<` passes through the
      tag stripping unchanged. */
  lemma StripJoinStep(html: string, sep: string, rest: string, e: string, f: string)
    requires '<' !in sep
    requires StripTags(html + (sep + rest)) == e + StripTags(sep + rest)
    requires StripTags(rest) == f
    ensures StripTags(html + sep + rest) == e + (sep + f)
  {
    assert html + sep + rest == html + (sep + rest);
    StripTagsText(sep, rest);
  }

  /** Round trip for a whole block: the text a reader sees in the markup is
      exactly the plain text the generator produced. */
  lemma RenderBlockRoundTrip(plain: string)
    ensures TextContent(RenderBlock(plain)) == plain
  {
    StripRenderedLines(Split(plain));
    JoinSplit(plain);
    EscapeRoundTrip(plain);
  }

  /** For the generator's trees: what is displayed is the trees joined by
      blank lines, with nothing lost, added or reordered. */
  lemma RenderRoundTrip(trees: seq<string>)
    requires |trees| > 0
    ensures TextContent(Render(trees)) == Join(trees, "\n\n")
  {
    RenderBlockRoundTrip(JoinTrees(trees));
    JoinTreesIsJoin(trees);
  }
}

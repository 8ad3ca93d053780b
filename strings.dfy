/** The JavaScript string operations that the renderer relies on:
    `indexOf`, `split("\n")` and `join(sep)`, as functions over `seq<char>`. */
module Strings {

  /** `pat` occurs in `s` starting at index `i`. */
  predicate OccursAt(s: string, pat: string, i: int)
  {
    0 <= i && i + |pat| <= |s| && s[i..i + |pat|] == pat
  }

  predicate Contains(s: string, pat: string)
  {
    exists i :: 0 <= i <= |s| && OccursAt(s, pat, i)
  }

  predicate StartsWith(s: string, prefix: string)
  {
    |prefix| <= |s| && s[..|prefix|] == prefix
  }

  /** `s.indexOf(pat)`: the index of the first occurrence of `pat`, or -1. */
  function IndexOf(s: string, pat: string): (r: int)
    ensures r == -1 <==> !Contains(s, pat)
    ensures r != -1 ==> OccursAt(s, pat, r)
    ensures r != -1 ==> forall j :: 0 <= j < r ==> !OccursAt(s, pat, j)
    decreases |s|
  {
    if |s| < |pat| then
      assert forall j :: !OccursAt(s, pat, j);
      -1
    else if s[..|pat|] == pat then
      assert OccursAt(s, pat, 0);
      0
    else
      var k := IndexOf(s[1..], pat);
      assert forall j :: 0 < j ==> (OccursAt(s, pat, j) <==> OccursAt(s[1..], pat, j - 1)) by {
        forall j | 0 < j ensures OccursAt(s, pat, j) <==> OccursAt(s[1..], pat, j - 1) {
          if j + |pat| <= |s| {
            var u, v := s[j..j + |pat|], s[1..][j - 1..j - 1 + |pat|];
            assert |u| == |v|;
            forall t | 0 <= t < |u| ensures u[t] == v[t] {
              assert s[1..][j - 1 + t] == s[j + t];
            }
            assert u == v;
          }
        }
      }
      if k == -1 then
        assert !OccursAt(s, pat, 0);
        -1
      else
        assert OccursAt(s, pat, k + 1);
        k + 1
  }

  /** `s.split("\n")`: the pieces between newline characters. Like
      JavaScript, the empty string splits into one empty piece. */
  function Split(s: string): (lines: seq<string>)
    ensures |lines| >= 1
    ensures forall i :: 0 <= i < |lines| ==> '\n' !in lines[i]
  {
    if s == [] then [""]
    else if s[0] == '\n' then [""] + Split(s[1..])
    else
      var t := Split(s[1..]);
      [[s[0]] + t[0]] + t[1..]
  }

  /** `xs.join(sep)`; an empty array joins to the empty string. */
  function Join(xs: seq<string>, sep: string): (s: string)
  {
    if |xs| == 0 then ""
    else if |xs| == 1 then xs[0]
    else xs[0] + sep + Join(xs[1..], sep)
  }

  /** With an empty separator, joining is plain concatenation of the head and the joined tail. */
  lemma ConcatCons(xs: seq<string>)
    requires |xs| >= 1
    ensures Join(xs, "") == xs[0] + Join(xs[1..], "")
  {
    if |xs| == 1 {
      assert xs[1..] == [];
      assert xs[0] + "" == xs[0];
    } else {
      assert xs[0] + "" + Join(xs[1..], "") == xs[0] + Join(xs[1..], "");
    }
  }

  /** With an empty separator, joining distributes over concatenation. */
  lemma {:induction false} ConcatJoin(xs: seq<string>, ys: seq<string>)
    ensures Join(xs + ys, "") == Join(xs, "") + Join(ys, "")
    decreases |xs|
  {
    if xs == [] {
      assert xs + ys == ys;
    } else {
      assert (xs + ys)[0] == xs[0];
      assert (xs + ys)[1..] == xs[1..] + ys;
      ConcatCons(xs + ys);
      ConcatCons(xs);
      ConcatJoin(xs[1..], ys);
      assert xs[0] + (Join(xs[1..], "") + Join(ys, "")) == (xs[0] + Join(xs[1..], "")) + Join(ys, "");
    }
  }

  lemma {:induction false} SplitWithoutNewline(s: string)
    requires '\n' !in s
    ensures Split(s) == [s]
    decreases |s|
  {
    if s != [] {
      SplitWithoutNewline(s[1..]);
      assert [s[0]] + s[1..] == s;
    }
  }

  /** Splitting at a newline splits the two sides independently. */
  lemma {:induction false} SplitAtNewline(a: string, b: string)
    ensures Split(a + "\n" + b) == Split(a) + Split(b)
    decreases |a|
  {
    if a == [] {
      assert a + "\n" + b == "\n" + b;
      assert ("\n" + b)[1..] == b;
    } else {
      var s := a + "\n" + b;
      assert s[0] == a[0];
      assert s[1..] == a[1..] + "\n" + b;
      SplitAtNewline(a[1..], b);
    }
  }

  /** Joining the pieces with newlines gives back the text. */
  lemma {:induction false} JoinSplit(s: string)
    ensures Join(Split(s), "\n") == s
    decreases |s|
  {
    if s == [] {
    } else if s[0] == '\n' {
      JoinSplit(s[1..]);
      var t := Split(s[1..]);
      assert Join([""] + t, "\n") == "" + "\n" + Join(t, "\n") by {
        assert ([""] + t)[1..] == t;
      }
      assert s == "\n" + s[1..];
    } else {
      JoinSplit(s[1..]);
      var t := Split(s[1..]);
      var u := [[s[0]] + t[0]] + t[1..];
      if |t| == 1 {
        assert Join(u, "\n") == [s[0]] + t[0];
      } else {
        assert u[1..] == t[1..];
        assert Join(t, "\n") == t[0] + "\n" + Join(t[1..], "\n");
        assert Join(u, "\n") == [s[0]] + t[0] + "\n" + Join(t[1..], "\n");
      }
      assert s == [s[0]] + s[1..];
    }
  }

  /** Splitting newline-free lines joined with newlines gives back the lines. */
  lemma {:induction false} SplitJoin(lines: seq<string>)
    requires |lines| >= 1
    requires forall i :: 0 <= i < |lines| ==> '\n' !in lines[i]
    ensures Split(Join(lines, "\n")) == lines
    decreases |lines|
  {
    SplitWithoutNewline(lines[0]);
    if |lines| > 1 {
      SplitJoin(lines[1..]);
      SplitAtNewline(lines[0], Join(lines[1..], "\n"));
      assert lines == [lines[0]] + lines[1..];
    }
  }

  /** Joining grows on the right by one separator and one element. */
  lemma {:induction false} JoinSnoc(xs: seq<string>, y: string, sep: string)
    requires |xs| >= 1
    ensures Join(xs + [y], sep) == Join(xs, sep) + sep + y
    decreases |xs|
  {
    if |xs| == 1 {
      assert (xs + [y])[1..] == [y];
    } else {
      assert (xs + [y])[1..] == xs[1..] + [y];
      JoinSnoc(xs[1..], y, sep);
    }
  }
}

// The three rewriting passes `split_single_file` applies to a DDL file before looking
// for statements: drop `--` line comments, drop `/* ... */` block comments, and
// collapse every whitespace run to one space.
module Normalize {
  import opened Wrappers
  import opened Chars
  import opened Text

  // ---------------------------------------------------------------------------
  // Pass 1: `re.sub(r'--.*$', '', content, flags=re.MULTILINE)`

  predicate StartsLineComment(s: string) {
    |s| >= 2 && s[0] == '-' && s[1] == '-'
  }

  /** No `--` left anywhere in the text. */
  predicate NoDoubleDash(s: string) {
    forall i, j :: 0 <= i < |s| && j == i + 1 && j < |s| ==> !(s[i] == '-' && s[j] == '-')
  }

  /** Position of the first line break, or the length when there is none. */
  function LineEnd(s: string): (k: nat)
    ensures k <= |s|
    ensures '\n' !in s[..k]
    ensures k < |s| ==> s[k] == '\n'
    ensures |s| > 0 && s[0] != '\n' ==> k > 0
  {
    if |s| == 0 || s[0] == '\n' then 0 else 1 + LineEnd(s[1..])
  }

  /** Scanning left to right, each `--` removes itself and the rest of its line; the
      line break stays (`.` does not match a line break). */
  function StripLineComments(s: string): (r: string)
    ensures |r| <= |s|
    ensures NoDoubleDash(r)
    ensures |s| > 0 && !StartsLineComment(s) ==> |r| > 0 && r[0] == s[0]
    ensures StartsLineComment(s) ==> r == [] || r[0] == '\n'
    decreases |s|
  {
    if |s| == 0 then []
    else if StartsLineComment(s) then StripLineComments(s[LineEnd(s)..])
    else [s[0]] + StripLineComments(s[1..])
  }

  /** Where the comment of a single line begins: its first `--`, or its end. */
  function CommentStart(line: string): (k: nat)
    ensures k <= |line|
    ensures NoDoubleDash(line[..k])
    ensures k < |line| ==> StartsLineComment(line[k..])
  {
    if |line| < 2 then |line|
    else if StartsLineComment(line) then 0
    else 1 + CommentStart(line[1..])
  }

  /** A single line with its comment cut off. */
  function CutComment(line: string): string {
    line[..CommentStart(line)]
  }

  /** Reference definition of pass 1: split the text into lines, cut the comment
      off each line, and join the lines again. */
  function LinewiseStrip(s: string): string {
    Join(CutEach(Split(s, '\n')), '\n')
  }

  function CutEach(lines: seq<string>): (r: seq<string>)
    ensures |r| == |lines|
  {
    if |lines| == 0 then [] else [CutComment(lines[0])] + CutEach(lines[1..])
  }

  lemma {:induction false} LineEndOf(line: string, rest: string)
    requires '\n' !in line
    requires rest == [] || rest[0] == '\n'
    ensures LineEnd(line + rest) == |line|
  {
    if |line| > 0 {
      assert (line + rest)[1..] == line[1..] + rest;
      LineEndOf(line[1..], rest);
    } else {
      assert line + rest == rest;
    }
  }

  /** On one line followed by a line break (or the end), pass 1 removes exactly
      the line's comment. */
  lemma {:induction false} StripOneLine(line: string, rest: string)
    requires '\n' !in line
    requires rest == [] || rest[0] == '\n'
    ensures StripLineComments(line + rest) == CutComment(line) + StripLineComments(rest)
    decreases |line|
  {
    var s := line + rest;
    if |line| == 0 {
      assert s == rest;
      assert CutComment(line) == [];
    } else if StartsLineComment(s) {
      assert s[1] == line[1];
      LineEndOf(line, rest);
      assert s[|line|..] == rest;
      assert StripLineComments(s) == StripLineComments(rest);
      assert CommentStart(line) == 0;
      assert CutComment(line) == [];
    } else {
      var tail := line[1..];
      assert s[1..] == tail + rest;
      assert StripLineComments(s) == [line[0]] + StripLineComments(tail + rest);
      StripOneLine(tail, rest);
      CutCommentCons(line);
      AppendAssoc([line[0]], CutComment(tail), StripLineComments(rest));
    }
  }

  /** A line that does not open with a comment keeps its first character. */
  lemma CutCommentCons(line: string)
    requires |line| > 0 && !StartsLineComment(line)
    ensures CutComment(line) == [line[0]] + CutComment(line[1..])
  {
    if |line| >= 2 {
      assert CommentStart(line) == 1 + CommentStart(line[1..]);
    } else {
      assert line[1..] == [];
      assert CommentStart(line) == 1;
    }
  }

  /** The reference definition takes a text apart at its first line break. */
  lemma LinewiseCons(line: string, rest: string)
    requires '\n' !in line
    ensures LinewiseStrip(line + ['\n'] + rest) == CutComment(line) + ['\n'] + LinewiseStrip(rest)
  {
    var pieces := Split(rest, '\n');
    SplitPrefix(line, rest, '\n');
    assert CutEach([line] + pieces) == [CutComment(line)] + CutEach(pieces) by {
      assert ([line] + pieces)[1..] == pieces;
    }
    JoinCons(CutComment(line), CutEach(pieces), '\n');
  }

  /** Pass 1 agrees with the line-by-line reference on every input. */
  lemma {:induction false} StripLineCommentsIsLinewise(s: string)
    ensures StripLineComments(s) == LinewiseStrip(s)
    decreases |s|
  {
    var k := LineEnd(s);
    if k == |s| {
      assert s[..k] == s;
      LinewiseLast(s);
    } else {
      var line := s[..k];
      var rest := s[k + 1..];
      assert s == line + ['\n'] + rest;
      StripLineCommentsIsLinewise(rest);
      LinewiseStep(line, rest);
    }
  }

  /** The last line of a text. */
  lemma LinewiseLast(line: string)
    requires '\n' !in line
    ensures StripLineComments(line) == LinewiseStrip(line)
  {
    SplitNoSeparator(line, '\n');
    StripOneLine(line, []);
    assert line + [] == line;
  }

  /** A line and its line break, in front of a text on which the two passes agree. */
  lemma LinewiseStep(line: string, rest: string)
    requires '\n' !in line
    requires StripLineComments(rest) == LinewiseStrip(rest)
    ensures StripLineComments(line + ['\n'] + rest) == LinewiseStrip(line + ['\n'] + rest)
  {
    var s := line + ['\n'] + rest;
    var broken := ['\n'] + rest;
    assert StripLineComments(s) == CutComment(line) + StripLineComments(broken) by {
      StripOneLine(line, broken);
      AppendAssoc(line, ['\n'], rest);
    }
    assert StripLineComments(broken) == ['\n'] + StripLineComments(rest) by {
      assert broken[1..] == rest;
    }
    AppendAssoc(CutComment(line), ['\n'], StripLineComments(rest));
    LinewiseCons(line, rest);
  }

  lemma JoinCons(p: string, ps: seq<string>, sep: char)
    requires |ps| > 0
    ensures Join([p] + ps, sep) == p + [sep] + Join(ps, sep)
  {
    assert ([p] + ps)[1..] == ps;
  }

  /** Pass 1 keeps every line break, so line structure survives it. */
  lemma {:induction false} StripLineCommentsKeepsLines(s: string)
    ensures Count(StripLineComments(s), '\n') == Count(s, '\n')
    decreases |s|
  {
    if |s| == 0 {
    } else if StartsLineComment(s) {
      var k := LineEnd(s);
      StripLineCommentsKeepsLines(s[k..]);
      assert s == s[..k] + s[k..];
      CountAppend(s[..k], s[k..], '\n');
      CountAbsent(s[..k], '\n');
    } else {
      StripLineCommentsKeepsLines(s[1..]);
      assert StripLineComments(s) == [s[0]] + StripLineComments(s[1..]);
      CountAppend([s[0]], StripLineComments(s[1..]), '\n');
    }
  }

  // ---------------------------------------------------------------------------
  // Pass 2: `re.sub(r'/\*.*?\*/', '', content, flags=re.DOTALL)`

  predicate StartsBlockComment(s: string) {
    |s| >= 2 && s[0] == '/' && s[1] == '*'
  }

  predicate ClosesAt(s: string, j: int) {
    0 <= j && j + 1 < |s| && s[j] == '*' && s[j + 1] == '/'
  }

  // The first `*/` at or after `from`: the shortest match of the lazy `.*?`.
  function FindClose(s: string, from: nat): (r: Option<nat>)
    ensures r.None? ==> forall j :: from <= j ==> !ClosesAt(s, j)
    ensures r.Some? ==> from <= r.value && ClosesAt(s, r.value)
    ensures r.Some? ==> forall j :: from <= j < r.value ==> !ClosesAt(s, j)
    decreases |s| - from
  {
    if from + 1 >= |s| then None
    else if ClosesAt(s, from) then Some(from)
    else FindClose(s, from + 1)
  }

  // Scanning left to right, each `/*` that has a later `*/` removes everything up to
  // and including the first such `*/`; an unterminated `/*` is kept as text.
  function StripBlockComments(s: string): (r: string)
    ensures |r| <= |s|
    ensures forall c :: c !in s ==> c !in r
    decreases |s|
  {
    if |s| == 0 then []
    else if StartsBlockComment(s) then
      match FindClose(s, 2)
      case Some(j) => StripBlockComments(s[j + 2..])
      case None => [s[0]] + StripBlockComments(s[1..])
    else [s[0]] + StripBlockComments(s[1..])
  }

  predicate NoCommentOpen(s: string) {
    forall i, j :: 0 <= i < |s| && j == i + 1 && j < |s| ==> !(s[i] == '/' && s[j] == '*')
  }

  predicate NoCommentClose(s: string) {
    forall i, j :: 0 <= i < |s| && j == i + 1 && j < |s| ==> !(s[i] == '*' && s[j] == '/')
  }

  // A complete comment `/* body */`, whose body holds no `*/`, is removed together
  // with its delimiters; the comment-free text before it is kept verbatim.
  lemma {:induction false} BlockCommentRemoved(a: string, body: string, rest: string)
    requires NoCommentOpen(a)
    requires NoCommentClose(body)
    ensures StripBlockComments(a + "/*" + body + "*/" + rest) == a + StripBlockComments(rest)
    decreases |a|
  {
    var s := a + "/*" + body + "*/" + rest;
    if |a| == 0 {
      assert s == "/*" + body + "*/" + rest;
      var j := 2 + |body|;
      assert ClosesAt(s, j);
      forall k | 2 <= k < j
        ensures !ClosesAt(s, k)
      {
        assert s[k] == body[k - 2];
        if k + 1 < j {
          assert s[k + 1] == body[k - 1];
        }
      }
      assert FindClose(s, 2) == Some(j);
      assert s[j + 2..] == rest;
    } else {
      assert s[1..] == a[1..] + "/*" + body + "*/" + rest;
      assert NoCommentOpen(a[1..]) by {
        forall i, j | 0 <= i < |a| - 1 && j == i + 1 && j < |a| - 1
          ensures !(a[1..][i] == '/' && a[1..][j] == '*')
        {
          assert a[1..][i] == a[i + 1] && a[1..][j] == a[j + 1];
        }
      }
      BlockCommentRemoved(a[1..], body, rest);
      AppendAssoc([a[0]], a[1..], StripBlockComments(rest));
      assert [a[0]] + a[1..] == a;
      assert !StartsBlockComment(s) by {
        if |a| == 1 {
          assert s[1] == '/';
        } else {
          assert s[1] == a[1];
        }
      }
    }
  }

  // Text without any `*/` has no complete comment, so pass 2 leaves it alone,
  // including any unterminated `/*`.
  lemma {:induction false} UnterminatedCommentKept(s: string)
    requires NoCommentClose(s)
    ensures StripBlockComments(s) == s
    decreases |s|
  {
    if |s| > 0 {
      UnterminatedCommentKept(s[1..]);
      if StartsBlockComment(s) {
        assert forall j :: 2 <= j ==> !ClosesAt(s, j);
        assert FindClose(s, 2).None?;
      }
      assert [s[0]] + s[1..] == s;
    }
  }

  /** Text without any `/*` opens no comment, so pass 2 leaves it alone, including
      any stray `*/`. */
  lemma {:induction false} NoCommentOpenKept(s: string)
    requires NoCommentOpen(s)
    ensures StripBlockComments(s) == s
    decreases |s|
  {
    if |s| > 0 {
      assert !StartsBlockComment(s) by {
        if |s| >= 2 {
          assert !(s[0] == '/' && s[1] == '*');
        }
      }
      assert NoCommentOpen(s[1..]) by {
        forall i, j | 0 <= i < |s| - 1 && j == i + 1 && j < |s| - 1
          ensures !(s[1..][i] == '/' && s[1..][j] == '*')
        {
          assert s[1..][i] == s[i + 1] && s[1..][j] == s[j + 1];
        }
      }
      NoCommentOpenKept(s[1..]);
      assert [s[0]] + s[1..] == s;
    }
  }

  // ---------------------------------------------------------------------------
  // Pass 3: `re.sub(r'\s+', ' ', content)`

  /** No two adjacent whitespace characters, and the only whitespace is a plain space. */
  predicate SingleSpaced(s: string) {
    && (forall i :: 0 <= i < |s| ==> IsSpace(s[i]) ==> s[i] == ' ')
    && (forall i, j :: 0 <= i < |s| && j == i + 1 && j < |s| ==> !(IsSpace(s[i]) && IsSpace(s[j])))
  }

  /** Each maximal whitespace run becomes a single space. */
  function CollapseWhitespace(s: string): (r: string)
    ensures |r| <= |s|
    ensures SingleSpaced(r)
    ensures |s| > 0 ==> |r| > 0 && r[0] == (if IsSpace(s[0]) then ' ' else s[0])
    decreases |s|
  {
    if |s| == 0 then []
    else if IsSpace(s[0]) then [' '] + CollapseWhitespace(DropLeading(s))
    else [s[0]] + CollapseWhitespace(s[1..])
  }

  /** A whitespace run with visible text (or the end of the text) on either side
      becomes exactly one space, and the text on each side is collapsed on its own. */
  lemma {:induction false} CollapseSpaceRun(a: string, w: string, b: string)
    requires a == [] || !IsSpace(a[|a| - 1])
    requires |w| > 0 && AllSpace(w)
    requires b == [] || !IsSpace(b[0])
    ensures CollapseWhitespace(a + w + b) == CollapseWhitespace(a) + " " + CollapseWhitespace(b)
    decreases |a|
  {
    if |a| == 0 {
      CollapseRunEmpty(a, w, b);
    } else if IsSpace(a[0]) {
      var t := DropLeading(a);
      DropLeadingBefore(a, w + b);
      CollapseSpaceRun(t, w, b);
      CollapseRunSpaceStep(a, t, w, b);
    } else {
      VisibleEndOfTail(a);
      CollapseSpaceRun(a[1..], w, b);
      CollapseRunVisibleStep(a, w, b);
    }
  }

  lemma CollapseRunEmpty(a: string, w: string, b: string)
    requires a == []
    requires |w| > 0 && AllSpace(w)
    requires b == [] || !IsSpace(b[0])
    ensures CollapseWhitespace(a + w + b) == CollapseWhitespace(a) + " " + CollapseWhitespace(b)
  {
    CollapseEmptyLeft(a, b);
    EmptyAppend(a, w);
    CollapseRunStart(w, b);
  }

  lemma CollapseEmptyLeft(a: string, b: string)
    requires a == []
    ensures CollapseWhitespace(a) + " " + CollapseWhitespace(b) == " " + CollapseWhitespace(b)
  {
    EmptyAppend(CollapseWhitespace(a), " ");
  }

  lemma EmptyAppend(a: string, x: string)
    requires a == []
    ensures a + x == x
  {
  }

  lemma CollapseRunStart(w: string, b: string)
    requires |w| > 0 && AllSpace(w)
    requires b == [] || !IsSpace(b[0])
    ensures CollapseWhitespace(w + b) == " " + CollapseWhitespace(b)
  {
    assert (w + b)[0] == w[0];
    DropLeadingSpaces(w, b);
    CollapseSpaceHead(w + b);
  }

  lemma VisibleEndOfTail(a: string)
    requires |a| > 0 && !IsSpace(a[|a| - 1])
    ensures a[1..] == [] || !IsSpace(a[1..][|a[1..]| - 1])
  {
    assert a[1..] == [] || a[1..][|a| - 2] == a[|a| - 1];
  }

  lemma CollapseRunSpaceStep(a: string, t: string, w: string, b: string)
    requires |a| > 0 && IsSpace(a[0]) && t == DropLeading(a)
    requires DropLeading(a + (w + b)) == t + (w + b)
    requires CollapseWhitespace(t + w + b) == CollapseWhitespace(t) + " " + CollapseWhitespace(b)
    ensures CollapseWhitespace(a + w + b) == CollapseWhitespace(a) + " " + CollapseWhitespace(b)
  {
    AppendAssoc(a, w, b);
    AppendAssoc(t, w, b);
    assert (a + w + b)[0] == a[0];
    CollapseSpaceHead(a + w + b);
    CollapseSpaceHead(a);
    ConsAssoc(' ', CollapseWhitespace(t), CollapseWhitespace(b));
  }

  lemma CollapseRunVisibleStep(a: string, w: string, b: string)
    requires |a| > 0 && !IsSpace(a[0])
    requires CollapseWhitespace(a[1..] + w + b) == CollapseWhitespace(a[1..]) + " " + CollapseWhitespace(b)
    ensures CollapseWhitespace(a + w + b) == CollapseWhitespace(a) + " " + CollapseWhitespace(b)
  {
    var s := a + w + b;
    assert s[1..] == a[1..] + w + b by {
      AppendAssoc(a, w, b);
      DropOfAppend(a, w + b, 1);
      AppendAssoc(a[1..], w, b);
    }
    assert s[0] == a[0];
    var p, q := CollapseWhitespace(a[1..]), CollapseWhitespace(b);
    assert CollapseWhitespace(s) == [a[0]] + (p + " " + q) by { CollapseVisibleHead(s); }
    assert CollapseWhitespace(a) == [a[0]] + p by { CollapseVisibleHead(a); }
    ConsAssoc(a[0], p, q);
  }

  lemma CollapseSpaceHead(s: string)
    requires |s| > 0 && IsSpace(s[0])
    ensures CollapseWhitespace(s) == [' '] + CollapseWhitespace(DropLeading(s))
  {
  }

  lemma CollapseVisibleHead(s: string)
    requires |s| > 0 && !IsSpace(s[0])
    ensures CollapseWhitespace(s) == [s[0]] + CollapseWhitespace(s[1..])
  {
  }

  lemma ConsAssoc(c: char, p: string, q: string)
    ensures [c] + (p + " " + q) == [c] + p + " " + q
  {
  }

  /** The non-whitespace characters of a text, in order. */
  function Visible(s: string): string {
    if |s| == 0 then []
    else (if IsSpace(s[0]) then [] else [s[0]]) + Visible(s[1..])
  }

  lemma {:induction false} VisibleOfSpaces(a: string, b: string)
    requires AllSpace(a)
    ensures Visible(a + b) == Visible(b)
    decreases |a|
  {
    if |a| == 0 {
      assert a + b == b;
    } else {
      assert (a + b)[1..] == a[1..] + b;
      VisibleOfSpaces(a[1..], b);
    }
  }

  /** Collapsing whitespace never adds, drops or reorders a visible character. */
  lemma {:induction false} CollapseKeepsVisible(s: string)
    ensures Visible(CollapseWhitespace(s)) == Visible(s)
    decreases |s|
  {
    if |s| == 0 {
    } else if IsSpace(s[0]) {
      var t := DropLeading(s);
      CollapseKeepsVisible(t);
      assert s == s[..|s| - |t|] + t;
      VisibleOfSpaces(s[..|s| - |t|], t);
      var r := CollapseWhitespace(s);
      assert r[1..] == CollapseWhitespace(t);
    } else {
      CollapseKeepsVisible(s[1..]);
      var r := CollapseWhitespace(s);
      assert r[1..] == CollapseWhitespace(s[1..]);
    }
  }

  /** Collapsing leaves a text unchanged exactly when it is already single-spaced. */
  lemma {:induction false} CollapseFixpoint(s: string)
    ensures CollapseWhitespace(s) == s <==> SingleSpaced(s)
    decreases |s|
  {
    if |s| > 0 && SingleSpaced(s) {
      assert SingleSpaced(s[1..]);
      CollapseFixpoint(s[1..]);
      if IsSpace(s[0]) {
        assert DropLeading(s) == s[1..];
      }
      assert [s[0]] + s[1..] == s;
    }
  }

  lemma CollapseIdempotent(s: string)
    ensures CollapseWhitespace(CollapseWhitespace(s)) == CollapseWhitespace(s)
  {
    CollapseFixpoint(CollapseWhitespace(s));
  }

  // ---------------------------------------------------------------------------

  /** The three passes in the order the splitter applies them. */
  function NormalizeContent(content: string): (r: string)
    ensures SingleSpaced(r)
    ensures '\n' !in r
  {
    CollapseWhitespace(StripBlockComments(StripLineComments(content)))
  }
}

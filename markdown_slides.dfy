/**
 * The Markdown reader of presentations/scripts/generate-presentation.js:
 * `parseMarkdown` cuts a deck into slides and `parseSlide` sorts the lines
 * of one slide into a title, a subtitle, bullets, text lines and code blocks.
 */
module MarkdownSlides {
  import opened Wrappers
  import opened TextUtil

  // ----- Front matter -----------------------------------------------------

  const FrontMatterOpen := "---\n"
  const FrontMatterClose := "\n---\n"
  const SlideSeparator := "\n---\n"

  /**
   * `content.replace(/^---\n[\s\S]*?\n---\n/, '')`: a block that opens the
   * file with a `---` line is removed up to and including the first later
   * `---` line. The lazy body starts after the opening line, so the
   * closing delimiter is searched from index 4 on.
   */
  function StripFrontMatter(content: string): (r: string)
    ensures |r| <= |content| && r == content[|content| - |r|..]
    ensures !StartsWith(content, FrontMatterOpen) ==> r == content
    ensures StartsWith(content, FrontMatterOpen) && r != content ==>
              exists p :: 4 <= p && OccursAt(content, FrontMatterClose, p)
                && (forall q :: 4 <= q < p ==> !OccursAt(content, FrontMatterClose, q))
                && r == content[p + 5..]
    ensures r == content <==>
              !StartsWith(content, FrontMatterOpen)
              || forall q :: 4 <= q ==> !OccursAt(content, FrontMatterClose, q)
  {
    if StartsWith(content, FrontMatterOpen) then
      match FindFrom(content, FrontMatterClose, 4)
      case Some(p) => content[p + 5..]
      case None => content
    else content
  }

  /** An empty front-matter block is not recognised: the close must start after the opening line. */
  lemma EmptyFrontMatterKept()
    ensures StripFrontMatter("---\n---\nx") == "---\n---\nx"
  {
    var c := "---\n---\nx";
    forall q | 4 <= q ensures !OccursAt(c, FrontMatterClose, q) {
      if q == 4 {
        assert c[4] == '-';
      }
    }
  }

  // ----- Inline formatting ------------------------------------------------

  /**
   * The lazy `(.*?)` of a delimited pattern: from `k`, the first index where
   * the closing delimiter `d` occurs, provided no line terminator comes
   * before it (JavaScript's `.` matches no line terminator).
   */
  function FindLazyClose(s: string, d: string, k: nat): (r: Option<nat>)
    requires k <= |s|
    ensures r.Some? ==> k <= r.value && OccursAt(s, d, r.value)
    ensures r.Some? ==> forall m :: k <= m < r.value ==>
              !OccursAt(s, d, m) && !IsJsLineTerminator(s[m])
    decreases |s| - k
  {
    if OccursAt(s, d, k) then Some(k)
    else if k < |s| && !IsJsLineTerminator(s[k]) then FindLazyClose(s, d, k + 1)
    else None
  }

  /**
   * A global replacement `s.replace(/D(.*?)D/g, pre + '$1' + post)` for a
   * literal delimiter `D`: scanning left to right, each match is replaced
   * and scanning resumes after it.
   */
  function ReplaceDelimited(s: string, d: string, pre: string, post: string): string
    requires |d| > 0
    decreases |s|
  {
    if s == [] then []
    else if StartsWith(s, d) then
      match FindLazyClose(s, d, |d|)
      case Some(j) => pre + s[|d|..j] + post + ReplaceDelimited(s[j + |d|..], d, pre, post)
      case None => [s[0]] + ReplaceDelimited(s[1..], d, pre, post)
    else [s[0]] + ReplaceDelimited(s[1..], d, pre, post)
  }

  /** The three rewrites applied to bullets and text lines: bold, italics, inline code. */
  function CleanMarkdown(s: string): string {
    var bold := ReplaceDelimited(s, "**", "<b>", "</b>");
    var italic := ReplaceDelimited(bold, "_", "<i>", "</i>");
    ReplaceDelimited(italic, "`", "", "")
  }

  lemma {:induction false} ReplaceDelimitedIdentity(s: string, d: string, pre: string, post: string)
    requires |d| > 0 && d[0] !in s
    ensures ReplaceDelimited(s, d, pre, post) == s
    decreases |s|
  {
    if s != [] {
      assert !StartsWith(s, d) by { assert s[0] != d[0]; }
      ReplaceDelimitedIdentity(s[1..], d, pre, post);
      assert s == [s[0]] + s[1..];
    }
  }

  lemma {:induction false} FindLazyCloseAt(s: string, d: string, k: nat, j: nat)
    requires k <= j && OccursAt(s, d, j)
    requires forall m :: k <= m < j ==> !OccursAt(s, d, m) && !IsJsLineTerminator(s[m])
    ensures FindLazyClose(s, d, k) == Some(j)
    decreases j - k
  {
    if k < j {
      FindLazyCloseAt(s, d, k + 1, j);
    }
  }

  /** Text before the first possible opening delimiter is copied, and the scan goes on after it. */
  lemma {:induction false} ReplaceDelimitedPrefix(p: string, s: string, d: string, pre: string, post: string)
    requires |d| > 0 && d[0] !in p
    ensures ReplaceDelimited(p + s, d, pre, post) == p + ReplaceDelimited(s, d, pre, post)
    decreases |p|
  {
    if p == [] {
      assert p + s == s;
    } else {
      ConsSlices(p, s, d);
      ReplaceDelimitedPrefix(p[1..], s, d, pre, post);
    }
  }

  /** A string starting with a character other than `d[0]` is not a match, and its tail is `p[1..] + s`. */
  lemma ConsSlices(p: string, s: string, d: string)
    requires |d| > 0 && p != [] && p[0] != d[0]
    ensures !StartsWith(p + s, d) && (p + s)[0] == p[0] && (p + s)[1..] == p[1..] + s
    ensures p + s == [p[0]] + (p[1..] + s) && [p[0]] + p[1..] == p
  {
    assert (p + s)[0] == p[0];
  }

  /** A span `d + x + d` is rewritten to `pre + x + post`, and the scan resumes after it. */
  lemma ReplaceDelimitedPair(x: string, b: string, d: string, pre: string, post: string)
    requires |d| > 0 && d[0] !in x
    requires forall c :: c in x ==> !IsJsLineTerminator(c)
    ensures ReplaceDelimited(d + x + d + b, d, pre, post) == pre + x + post + ReplaceDelimited(b, d, pre, post)
  {
    var s := d + x + d + b;
    var j := |d| + |x|;
    SpanSlices(d, x, b);
    forall m | |d| <= m < j ensures !OccursAt(s, d, m) && !IsJsLineTerminator(s[m]) {
      assert s[m] == x[m - |d|];
    }
    FindLazyCloseAt(s, d, |d|, j);
  }

  /** Where the pieces of `d + x + d + b` sit. */
  lemma SpanSlices(d: string, x: string, b: string)
    ensures var s := d + x + d + b;
            var j := |d| + |x|;
            s[..|d|] == d && s[|d|..j] == x && s[j..j + |d|] == d && s[j + |d|..] == b
            && forall m :: |d| <= m < j ==> s[m] == x[m - |d|]
  {
  }

  /** A span anywhere in a line: the plain text before it is kept and the scan resumes after it. */
  lemma ReplaceDelimitedSpan(a: string, x: string, b: string, d: string, pre: string, post: string)
    requires |d| > 0 && d[0] !in a && d[0] !in x
    requires forall c :: c in x ==> !IsJsLineTerminator(c)
    ensures ReplaceDelimited(a + d + x + d + b, d, pre, post)
            == a + pre + x + post + ReplaceDelimited(b, d, pre, post)
  {
    Regroup(a, d, x, d, b);
    ReplaceDelimitedPrefix(a, d + x + d + b, d, pre, post);
    ReplaceDelimitedPair(x, b, d, pre, post);
    Regroup(a, pre, x, post, ReplaceDelimited(b, d, pre, post));
  }

  lemma Regroup(a: string, d: string, x: string, e: string, b: string)
    ensures a + d + x + e + b == a + (d + x + e + b)
  {
  }

  predicate Plain(x: string) {
    forall c :: c in x ==> c != '*' && c != '_' && c != '`' && !IsJsLineTerminator(c)
  }

  /** Text with no `*`, `_` or backquote is left as it is. */
  lemma CleanKeepsPlain(s: string)
    requires forall c :: c in s ==> c != '*' && c != '_' && c != '`'
    ensures CleanMarkdown(s) == s
  {
    ReplaceDelimitedIdentity(s, "**", "<b>", "</b>");
    ReplaceDelimitedIdentity(s, "_", "<i>", "</i>");
    ReplaceDelimitedIdentity(s, "`", "", "");
  }

  lemma PlainConcat(a: string, b: string)
    requires Plain(a) && Plain(b)
    ensures Plain(a + b)
  {
  }

  lemma TagsPlain()
    ensures Plain("<b>") && Plain("</b>") && Plain("<i>") && Plain("</i>")
  {
  }

  /** Text free of `*`, `_` and backquotes in front of a line is copied by all three rewrites. */
  lemma CleanThrough(h: string, t: string)
    requires '*' !in h && '_' !in h && '`' !in h
    ensures CleanMarkdown(h + t) == h + CleanMarkdown(t)
  {
    var bold := ReplaceDelimited(t, "**", "<b>", "</b>");
    var italic := ReplaceDelimited(bold, "_", "<i>", "</i>");
    ReplaceDelimitedPrefix(h, t, "**", "<b>", "</b>");
    ReplaceDelimitedPrefix(h, bold, "_", "<i>", "</i>");
    ReplaceDelimitedPrefix(h, italic, "`", "", "");
  }

  /** Text free of `_` and backquotes in front of the bold pass's result is copied by the other two. */
  lemma AfterBoldThrough(h: string, t: string)
    requires '_' !in h && '`' !in h
    ensures ReplaceDelimited(ReplaceDelimited(h + t, "_", "<i>", "</i>"), "`", "", "")
            == h + ReplaceDelimited(ReplaceDelimited(t, "_", "<i>", "</i>"), "`", "", "")
  {
    ReplaceDelimitedPrefix(h, t, "_", "<i>", "</i>");
    ReplaceDelimitedPrefix(h, ReplaceDelimited(t, "_", "<i>", "</i>"), "`", "", "");
  }

  /** Plain text wrapped in two tags is still free of markup characters. */
  lemma WrappedPlain(a: string, open: string, x: string, close: string)
    requires Plain(a) && Plain(x) && Plain(open) && Plain(close)
    ensures Plain(a + open + x + close)
  {
    PlainConcat(a, open);
    PlainConcat(a + open, x);
    PlainConcat(a + open + x, close);
  }

  lemma PlainFree(a: string)
    requires Plain(a)
    ensures '*' !in a && '_' !in a && '`' !in a
  {
  }

  /** A character outside all four pieces is outside the whole span. */
  lemma SpanFree(a: string, d: string, x: string, c: char)
    requires c !in a && c !in d && c !in x
    ensures c !in a + d + x + d
  {
  }

  /**
   * `a**x**b` becomes `a<b>x</b>` followed by the cleaned rest `b`, so
   * every later span of the line is cleaned too.
   */
  lemma CleanBold(a: string, x: string, b: string)
    requires Plain(a) && Plain(x)
    ensures CleanMarkdown(a + "**" + x + "**" + b) == a + "<b>" + x + "</b>" + CleanMarkdown(b)
  {
    var h := a + "<b>" + x + "</b>";
    PlainFree(a);
    PlainFree(x);
    ReplaceDelimitedSpan(a, x, b, "**", "<b>", "</b>");
    TagsPlain();
    WrappedPlain(a, "<b>", x, "</b>");
    PlainFree(h);
    AfterBoldThrough(h, ReplaceDelimited(b, "**", "<b>", "</b>"));
  }

  /** `a_x_b` becomes `a<i>x</i>` followed by the cleaned rest `b`. */
  lemma CleanItalic(a: string, x: string, b: string)
    requires Plain(a) && Plain(x)
    ensures CleanMarkdown(a + "_" + x + "_" + b) == a + "<i>" + x + "</i>" + CleanMarkdown(b)
  {
    var bold := ReplaceDelimited(b, "**", "<b>", "</b>");
    var h := a + "<i>" + x + "</i>";
    PlainFree(a);
    PlainFree(x);
    SpanFree(a, "_", x, '*');
    ReplaceDelimitedPrefix(a + "_" + x + "_", b, "**", "<b>", "</b>");
    ReplaceDelimitedSpan(a, x, bold, "_", "<i>", "</i>");
    TagsPlain();
    WrappedPlain(a, "<i>", x, "</i>");
    PlainFree(h);
    ReplaceDelimitedPrefix(h, ReplaceDelimited(bold, "_", "<i>", "</i>"), "`", "", "");
  }

  /** ``a`x`b`` becomes `a`, then `x`, then the cleaned rest `b`. */
  lemma CleanCode(a: string, x: string, b: string)
    requires Plain(a) && Plain(x)
    ensures CleanMarkdown(a + "`" + x + "`" + b) == a + x + CleanMarkdown(b)
  {
    var bold := ReplaceDelimited(b, "**", "<b>", "</b>");
    var italic := ReplaceDelimited(bold, "_", "<i>", "</i>");
    PlainFree(a);
    PlainFree(x);
    SpanFree(a, "`", x, '*');
    SpanFree(a, "`", x, '_');
    ReplaceDelimitedPrefix(a + "`" + x + "`", b, "**", "<b>", "</b>");
    ReplaceDelimitedPrefix(a + "`" + x + "`", bold, "_", "<i>", "</i>");
    ReplaceDelimitedSpan(a, x, italic, "`", "", "");
    DropEmpty(a, x, ReplaceDelimited(italic, "`", "", ""));
  }

  lemma DropEmpty(a: string, x: string, c: string)
    ensures a + [] + x + [] + c == a + x + c
  {
  }

  /** Two spans on one line are both rewritten. */
  lemma CleanTwoSpans(a: string, x: string, m: string, y: string, b: string)
    requires Plain(a) && Plain(x) && Plain(m) && Plain(y) && Plain(b)
    ensures CleanMarkdown(a + "**" + x + "**" + m + "_" + y + "_" + b)
            == a + "<b>" + x + "</b>" + m + "<i>" + y + "</i>" + b
  {
    var rest := m + "_" + y + "_" + b;
    Regroup6(a + "**" + x + "**", m, "_", y, "_", b);
    CleanBold(a, x, rest);
    CleanItalic(m, y, b);
    CleanKeepsPlain(b);
    Regroup6(a + "<b>" + x + "</b>", m, "<i>", y, "</i>", b);
  }

  lemma Regroup6(p: string, q1: string, q2: string, q3: string, q4: string, q5: string)
    ensures p + q1 + q2 + q3 + q4 + q5 == p + (q1 + q2 + q3 + q4 + q5)
  {
  }

  // ----- One slide --------------------------------------------------------

  /** The object `parseSlide` returns. */
  datatype Slide = Slide(
    title: string,
    subtitle: string,
    bullets: seq<string>,
    text: seq<string>,
    codeBlocks: seq<string>,
    isModule: bool,
    raw: string)

  /** The local variables of `parseSlide`'s loop. */
  datatype ParseState = ParseState(
    title: string,
    subtitle: string,
    bullets: seq<string>,
    text: seq<string>,
    codeBlocks: seq<string>,
    isModule: bool,
    inComment: bool,
    inCodeBlock: bool,
    currentCodeBlock: seq<string>)

  const Init := ParseState("", "", [], [], [], false, false, false, [])

  /** What one line is, given the comment and code modes it is read in. */
  datatype LineKind =
    | CommentEnd      // holds `-->`: dropped, leaves comment mode
    | Commented       // opens a comment or lies inside one: dropped
    | FenceOpen       // a fence outside a code block
    | FenceClose      // a fence inside a code block
    | CodeLine        // a line inside a code block
    | Skipped         // empty, or a table row
    | Heading1        // `# `
    | Heading2        // `## `
    | BulletLine      // `- ` or `* `
    | TextLine        // any other line not starting with `#`
    | OtherHeading    // `###` and deeper: dropped

  function Classify(inComment: bool, inCodeBlock: bool, line: string): LineKind {
    var t := JsTrim(line);
    if Contains(t, "-->") then CommentEnd
    else if StartsWith(t, "<!--") || inComment then Commented
    else if StartsWith(t, "```") then (if inCodeBlock then FenceClose else FenceOpen)
    else if inCodeBlock then CodeLine
    else if t == "" || StartsWith(t, "|") then Skipped
    else if StartsWith(t, "# ") then Heading1
    else if StartsWith(t, "## ") then Heading2
    else if StartsWith(t, "- ") || StartsWith(t, "* ") then BulletLine
    else if !StartsWith(t, "#") then TextLine
    else OtherHeading
  }

  /** `t.replace(/^P/, '')` for a literal `P`. */
  function StripPrefix(t: string, p: string): string {
    if StartsWith(t, p) then t[|p|..] else t
  }

  /** `t.replace(/^[- *] /, '')`. */
  function StripBulletMarker(t: string): string {
    if |t| >= 2 && (t[0] == '-' || t[0] == ' ' || t[0] == '*') && t[1] == ' ' then t[2..] else t
  }

  function TitleOf(line: string): string { JsTrim(StripPrefix(JsTrim(line), "# ")) }
  function SubtitleOf(line: string): string { JsTrim(StripPrefix(JsTrim(line), "## ")) }
  function BulletOf(line: string): string { CleanMarkdown(JsTrim(StripBulletMarker(JsTrim(line)))) }
  function TextOf(line: string): string { CleanMarkdown(JsTrim(line)) }

  /** The effect of one line on the parser's variables. */
  function Step(st: ParseState, line: string): ParseState {
    match Classify(st.inComment, st.inCodeBlock, line)
    case CommentEnd => st.(inComment := false)
    case Commented => st.(inComment := true)
    case FenceOpen => st.(inCodeBlock := true)
    case FenceClose =>
      st.(codeBlocks := st.codeBlocks + [Join(st.currentCodeBlock, "\n")],
          currentCodeBlock := [], inCodeBlock := false)
    case CodeLine => st.(currentCodeBlock := st.currentCodeBlock + [line])
    case Skipped => st
    case Heading1 =>
      st.(title := TitleOf(line), isModule := st.isModule || Contains(JsTrim(line), "Module"))
    case Heading2 => st.(subtitle := SubtitleOf(line))
    case BulletLine => st.(bullets := st.bullets + [BulletOf(line)])
    case TextLine => st.(text := st.text + [TextOf(line)])
    case OtherHeading => st
  }

  /** The variables after the given lines, read from the start. */
  function Run(lines: seq<string>): ParseState
    decreases |lines|
  {
    if lines == [] then Init else Step(Run(lines[..|lines| - 1]), lines[|lines| - 1])
  }

  function ToSlide(st: ParseState, raw: string): Slide {
    Slide(st.title, st.subtitle, st.bullets, st.text, st.codeBlocks, st.isModule, raw)
  }

  function ParseSlideSpec(content: string): Slide {
    ToSlide(Run(Split(content, "\n")), content)
  }

  /**
   * The body of the line loop of `parseSlide`: one line's effect on the
   * parser's variables, with the source's `continue` exits as early returns.
   */
  method ParseLine(st: ParseState, line: string) returns (next: ParseState)
    ensures next == Step(st, line)
  {
    var title, subtitle := st.title, st.subtitle;
    var bullets, text, codeBlocks := st.bullets, st.text, st.codeBlocks;
    var isModule, inComment, inCodeBlock := st.isModule, st.inComment, st.inCodeBlock;
    var currentCodeBlock := st.currentCodeBlock;
    var trimmed := JsTrim(line);

    if StartsWith(trimmed, "<!--") {
      inComment := true;
    }
    if Contains(trimmed, "-->") {
      inComment := false;
      return st.(inComment := inComment);
    }
    if inComment {
      return st.(inComment := inComment);
    }

    if StartsWith(trimmed, "```") {
      if inCodeBlock {
        codeBlocks := codeBlocks + [Join(currentCodeBlock, "\n")];
        currentCodeBlock := [];
        inCodeBlock := false;
      } else {
        inCodeBlock := true;
      }
      return st.(codeBlocks := codeBlocks, currentCodeBlock := currentCodeBlock,
                 inCodeBlock := inCodeBlock);
    }

    if inCodeBlock {
      currentCodeBlock := currentCodeBlock + [line];
      return st.(currentCodeBlock := currentCodeBlock);
    }

    if trimmed == "" || StartsWith(trimmed, "|") {
      return st;
    }

    if StartsWith(trimmed, "# ") {
      if Contains(trimmed, "Module") {
        isModule := true;
      }
      title := JsTrim(StripPrefix(trimmed, "# "));
    } else if StartsWith(trimmed, "## ") {
      subtitle := JsTrim(StripPrefix(trimmed, "## "));
    } else if StartsWith(trimmed, "- ") || StartsWith(trimmed, "* ") {
      var bullet := JsTrim(StripBulletMarker(trimmed));
      bullets := bullets + [CleanMarkdown(bullet)];
    } else if trimmed != "" && !StartsWith(trimmed, "#") {
      text := text + [CleanMarkdown(trimmed)];
    }
    next := st.(title := title, subtitle := subtitle, bullets := bullets,
                text := text, isModule := isModule);
  }

  /** `parseSlide`: runs `ParseLine` over the lines of the slide's text. */
  method ParseSlide(content: string) returns (slide: Slide)
    ensures slide == ParseSlideSpec(content)
  {
    var lines := Split(content, "\n");
    var st := Init;
    for i := 0 to |lines|
      invariant st == Run(lines[..i])
    {
      assert lines[..i + 1][..i] == lines[..i];
      st := ParseLine(st, lines[i]);
    }
    assert lines[..|lines|] == lines;
    slide := ToSlide(st, content);
  }

  // ----- What the lines contribute ----------------------------------------

  /** The kind of `line` when it follows the lines `prefix`. */
  function KindAfter(prefix: seq<string>, line: string): LineKind {
    var st := Run(prefix);
    Classify(st.inComment, st.inCodeBlock, line)
  }

  /** The lines of kind `k`, in order. */
  function LinesOf(lines: seq<string>, k: LineKind): seq<string>
    decreases |lines|
  {
    if lines == [] then []
    else
      var p := lines[..|lines| - 1];
      LinesOf(p, k) + (if KindAfter(p, lines[|lines| - 1]) == k then [lines[|lines| - 1]] else [])
  }

  function Map(f: string -> string, xs: seq<string>): (ys: seq<string>)
    ensures |ys| == |xs| && forall i :: 0 <= i < |xs| ==> ys[i] == f(xs[i])
    decreases |xs|
  {
    if xs == [] then [] else Map(f, xs[..|xs| - 1]) + [f(xs[|xs| - 1])]
  }

  function LastOr(xs: seq<string>, default: string): string {
    if xs == [] then default else xs[|xs| - 1]
  }

  lemma MapSnoc(f: string -> string, xs: seq<string>, x: string)
    ensures Map(f, xs + [x]) == Map(f, xs) + [f(x)]
  {
    assert (xs + [x])[..|xs|] == xs;
  }

  /** What one line does to each collected field. */
  lemma StepFields(st: ParseState, line: string)
    ensures var k := Classify(st.inComment, st.inCodeBlock, line);
            var next := Step(st, line);
            && next.bullets == st.bullets + (if k == BulletLine then [BulletOf(line)] else [])
            && next.text == st.text + (if k == TextLine then [TextOf(line)] else [])
            && next.title == (if k == Heading1 then TitleOf(line) else st.title)
            && next.subtitle == (if k == Heading2 then SubtitleOf(line) else st.subtitle)
  {
  }

  /** Each bullet line gives one bullet, in order. */
  lemma {:induction false} RunBullets(lines: seq<string>)
    ensures Run(lines).bullets == Map(BulletOf, LinesOf(lines, BulletLine))
    decreases |lines|
  {
    if lines != [] {
      var p := lines[..|lines| - 1];
      RunBullets(p);
      StepFields(Run(p), lines[|lines| - 1]);
      MapSnoc(BulletOf, LinesOf(p, BulletLine), lines[|lines| - 1]);
    }
  }

  /** Each text line gives one text entry, in order. */
  lemma {:induction false} RunText(lines: seq<string>)
    ensures Run(lines).text == Map(TextOf, LinesOf(lines, TextLine))
    decreases |lines|
  {
    if lines != [] {
      var p := lines[..|lines| - 1];
      RunText(p);
      StepFields(Run(p), lines[|lines| - 1]);
      MapSnoc(TextOf, LinesOf(p, TextLine), lines[|lines| - 1]);
    }
  }

  /** There is one code block per closing fence. */
  lemma {:induction false} RunCodeBlocks(lines: seq<string>)
    ensures |Run(lines).codeBlocks| == |LinesOf(lines, FenceClose)|
    decreases |lines|
  {
    if lines != [] {
      RunCodeBlocks(lines[..|lines| - 1]);
    }
  }

  /** Outside a code block nothing is pending: a block left open at the end is dropped. */
  lemma {:induction false} RunNoPendingCode(lines: seq<string>)
    ensures !Run(lines).inCodeBlock ==> Run(lines).currentCodeBlock == []
    decreases |lines|
  {
    if lines != [] {
      RunNoPendingCode(lines[..|lines| - 1]);
      StepNoPendingCode(Run(lines[..|lines| - 1]), lines[|lines| - 1]);
    }
  }

  lemma StepNoPendingCode(st: ParseState, line: string)
    requires !st.inCodeBlock ==> st.currentCodeBlock == []
    ensures !Step(st, line).inCodeBlock ==> Step(st, line).currentCodeBlock == []
  {
    if Classify(st.inComment, st.inCodeBlock, line) == CodeLine {
      assert st.inCodeBlock;
    }
  }

  /** The title is that of the last `# ` line, or empty when there is none. */
  lemma {:induction false} RunTitle(lines: seq<string>)
    ensures Run(lines).title == LastOr(Map(TitleOf, LinesOf(lines, Heading1)), "")
    decreases |lines|
  {
    if lines != [] {
      var p := lines[..|lines| - 1];
      RunTitle(p);
      StepFields(Run(p), lines[|lines| - 1]);
      MapSnoc(TitleOf, LinesOf(p, Heading1), lines[|lines| - 1]);
    }
  }

  /** The subtitle is that of the last `## ` line, or empty when there is none. */
  lemma {:induction false} RunSubtitle(lines: seq<string>)
    ensures Run(lines).subtitle == LastOr(Map(SubtitleOf, LinesOf(lines, Heading2)), "")
    decreases |lines|
  {
    if lines != [] {
      var p := lines[..|lines| - 1];
      RunSubtitle(p);
      StepFields(Run(p), lines[|lines| - 1]);
      MapSnoc(SubtitleOf, LinesOf(p, Heading2), lines[|lines| - 1]);
    }
  }

  /** A slide is a module divider exactly when one of its `# ` lines mentions `Module`. */
  lemma {:induction false} RunIsModule(lines: seq<string>)
    ensures Run(lines).isModule <==>
              exists l | l in LinesOf(lines, Heading1) :: Contains(JsTrim(l), "Module")
    decreases |lines|
  {
    if lines != [] {
      var p := lines[..|lines| - 1];
      var l := lines[|lines| - 1];
      RunIsModule(p);
      if KindAfter(p, l) == Heading1 {
        assert LinesOf(lines, Heading1) == LinesOf(p, Heading1) + [l];
      } else {
        assert LinesOf(lines, Heading1) == LinesOf(p, Heading1);
      }
    }
  }

  /** The per-line rules, stated on the parser's variables. */
  lemma StepRules(st: ParseState, line: string)
    ensures Contains(JsTrim(line), "-->") ==> Step(st, line) == st.(inComment := false)
    ensures st.inComment && !Contains(JsTrim(line), "-->") ==> Step(st, line) == st
    ensures !st.inComment && !Contains(JsTrim(line), "-->") && StartsWith(JsTrim(line), "<!--") ==>
              Step(st, line) == st.(inComment := true)
    ensures !st.inComment && !Contains(JsTrim(line), "-->") && !StartsWith(JsTrim(line), "<!--")
            && st.inCodeBlock && !StartsWith(JsTrim(line), "```") ==>
              Step(st, line) == st.(currentCodeBlock := st.currentCodeBlock + [line])
    ensures var k := Classify(st.inComment, st.inCodeBlock, line);
            k == FenceOpen || k == FenceClose ==>
              Step(st, line).inCodeBlock == !st.inCodeBlock
              && Step(st, line).bullets == st.bullets && Step(st, line).text == st.text
              && Step(st, line).title == st.title && Step(st, line).subtitle == st.subtitle
  {
  }

  // ----- The deck ---------------------------------------------------------

  /** A slide is kept when it has a title, a bullet or a text line. */
  predicate HasContent(s: Slide) {
    s.title != "" || |s.bullets| > 0 || |s.text| > 0
  }

  /** The slide one part contributes: none when it is blank or has no content. */
  function KeepPart(part: string): seq<Slide> {
    var t := JsTrim(part);
    if t != "" && HasContent(ParseSlideSpec(t)) then [ParseSlideSpec(t)] else []
  }

  /** The slides `parseMarkdown` keeps from the given parts, in order. */
  function KeepSlides(parts: seq<string>): seq<Slide>
    decreases |parts|
  {
    if parts == [] then [] else KeepSlides(parts[..|parts| - 1]) + KeepPart(parts[|parts| - 1])
  }

  /** At most one slide per part is kept, and every kept slide has a title, a bullet or a text line. */
  lemma {:induction false} KeepSlidesContent(parts: seq<string>)
    ensures |KeepSlides(parts)| <= |parts|
    ensures forall i :: 0 <= i < |KeepSlides(parts)| ==> HasContent(KeepSlides(parts)[i])
    decreases |parts|
  {
    if parts != [] {
      KeepSlidesContent(parts[..|parts| - 1]);
    }
  }

  lemma KeepSlidesStep(parts: seq<string>, i: nat)
    requires i < |parts|
    ensures KeepSlides(parts[..i + 1]) == KeepSlides(parts[..i]) + KeepPart(parts[i])
  {
    assert parts[..i + 1][..i] == parts[..i];
  }

  function ParseMarkdownSpec(content: string): seq<Slide> {
    KeepSlides(Split(StripFrontMatter(content), SlideSeparator))
  }

  /** The body of the part loop of `parseMarkdown`: the slide one part adds, if any. */
  method ParsePart(part: string) returns (kept: seq<Slide>)
    ensures kept == KeepPart(part)
  {
    kept := [];
    var slideContent := JsTrim(part);
    if slideContent != "" {
      var parsed := ParseSlide(slideContent);
      if parsed.title != "" || |parsed.bullets| > 0 || |parsed.text| > 0 {
        kept := [parsed];
      }
    }
  }

  /** `parseMarkdown` on the text of the file. */
  method ParseMarkdown(content: string) returns (slides: seq<Slide>)
    ensures slides == ParseMarkdownSpec(content)
  {
    var withoutFrontmatter := StripFrontMatter(content);
    slides := [];
    var parts := Split(withoutFrontmatter, SlideSeparator);
    for i := 0 to |parts|
      invariant slides == KeepSlides(parts[..i])
    {
      KeepSlidesStep(parts, i);
      var kept := ParsePart(parts[i]);
      slides := slides + kept;
    }
    assert parts[..|parts|] == parts;
  }

  /** A part whose slide has only a subtitle or code adds nothing. */
  lemma DropsEmptySlides(parts: seq<string>, part: string)
    requires var s := ParseSlideSpec(JsTrim(part)); s.title == "" && s.bullets == [] && s.text == []
    ensures KeepSlides(parts + [part]) == KeepSlides(parts)
  {
    assert (parts + [part])[..|parts|] == parts;
  }

  /** A part whose slide has content is appended after the slides before it. */
  lemma KeepsContentSlides(parts: seq<string>, part: string)
    requires JsTrim(part) != "" && HasContent(ParseSlideSpec(JsTrim(part)))
    ensures KeepSlides(parts + [part]) == KeepSlides(parts) + [ParseSlideSpec(JsTrim(part))]
  {
    assert (parts + [part])[..|parts|] == parts;
  }
}

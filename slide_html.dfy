/**
 * The decisions `createSlideHTML` of presentations/scripts/generate-presentation.js
 * takes for one slide (its kind, which headings, paragraphs, list items and
 * code lines appear, and how they are escaped), the `escapeHtml` helper and
 * the names of the generated HTML files.
 */
module SlideHtml {
  import opened Wrappers
  import opened TextUtil
  import opened Numerals
  import opened MarkdownSlides

  // ----- Escaping ---------------------------------------------------------

  /** `s.replace(/c/g, rep)` for a one-character pattern `c`. */
  function ReplaceChar(s: string, c: char, rep: string): string
    decreases |s|
  {
    if s == [] then [] else (if s[0] == c then rep else [s[0]]) + ReplaceChar(s[1..], c, rep)
  }

  lemma {:induction false} ReplaceCharAppend(a: string, b: string, c: char, rep: string)
    ensures ReplaceChar(a + b, c, rep) == ReplaceChar(a, c, rep) + ReplaceChar(b, c, rep)
    decreases |a|
  {
    if a == [] {
      assert a + b == b;
    } else {
      assert (a + b)[1..] == a[1..] + b;
      ReplaceCharAppend(a[1..], b, c, rep);
    }
  }

  lemma {:induction false} ReplaceCharAbsent(s: string, c: char, rep: string)
    requires c !in s
    ensures ReplaceChar(s, c, rep) == s
    decreases |s|
  {
    if s != [] {
      ReplaceCharAbsent(s[1..], c, rep);
      assert s == [s[0]] + s[1..];
    }
  }

  /** `escapeHtml`: five global replacements, `&` first. */
  function EscapeHtml(text: string): string {
    var amp := ReplaceChar(text, '&', "&amp;");
    var lt := ReplaceChar(amp, '<', "&lt;");
    var gt := ReplaceChar(lt, '>', "&gt;");
    var quot := ReplaceChar(gt, '"', "&quot;");
    ReplaceChar(quot, '\'', "&#39;")
  }

  /** The entity each character stands for in the escaped text. */
  function EscapeChar(c: char): string {
    if c == '&' then "&amp;"
    else if c == '<' then "&lt;"
    else if c == '>' then "&gt;"
    else if c == '"' then "&quot;"
    else if c == '\'' then "&#39;"
    else [c]
  }

  /** Character-by-character substitution, the reference definition of escaping. */
  function EscapeEach(s: string): string
    decreases |s|
  {
    if s == [] then [] else EscapeChar(s[0]) + EscapeEach(s[1..])
  }

  /** None of the characters that the markup gives meaning to, besides `&`. */
  predicate NoMarkup(t: string) {
    '<' !in t && '>' !in t && '"' !in t && '\'' !in t
  }

  lemma EscapeHtmlAppend(a: string, b: string)
    ensures EscapeHtml(a + b) == EscapeHtml(a) + EscapeHtml(b)
  {
    ReplaceCharAppend(a, b, '&', "&amp;");
    var a1, b1 := ReplaceChar(a, '&', "&amp;"), ReplaceChar(b, '&', "&amp;");
    ReplaceCharAppend(a1, b1, '<', "&lt;");
    var a2, b2 := ReplaceChar(a1, '<', "&lt;"), ReplaceChar(b1, '<', "&lt;");
    ReplaceCharAppend(a2, b2, '>', "&gt;");
    var a3, b3 := ReplaceChar(a2, '>', "&gt;"), ReplaceChar(b2, '>', "&gt;");
    ReplaceCharAppend(a3, b3, '"', "&quot;");
    var a4, b4 := ReplaceChar(a3, '"', "&quot;"), ReplaceChar(b3, '"', "&quot;");
    ReplaceCharAppend(a4, b4, '\'', "&#39;");
  }

  lemma ReplaceCharOne(x: char, c: char, rep: string)
    ensures ReplaceChar([x], c, rep) == if x == c then rep else [x]
  {
    assert [x][1..] == [];
  }

  /** The passes after the one that produced `e` leave it alone. */
  lemma EscapeTail(e: string, from: nat)
    requires from <= 4
    requires from <= 1 ==> '<' !in e
    requires from <= 2 ==> '>' !in e
    requires from <= 3 ==> '"' !in e
    requires '\'' !in e
    ensures from == 1 ==> ReplaceChar(ReplaceChar(ReplaceChar(ReplaceChar(e, '<', "&lt;"), '>', "&gt;"), '"', "&quot;"), '\'', "&#39;") == e
    ensures from == 2 ==> ReplaceChar(ReplaceChar(ReplaceChar(e, '>', "&gt;"), '"', "&quot;"), '\'', "&#39;") == e
    ensures from == 3 ==> ReplaceChar(ReplaceChar(e, '"', "&quot;"), '\'', "&#39;") == e
    ensures from == 4 ==> ReplaceChar(e, '\'', "&#39;") == e
  {
    if from <= 1 { ReplaceCharAbsent(e, '<', "&lt;"); }
    if from <= 2 { ReplaceCharAbsent(e, '>', "&gt;"); }
    if from <= 3 { ReplaceCharAbsent(e, '"', "&quot;"); }
    ReplaceCharAbsent(e, '\'', "&#39;");
  }

  /** On one character the five passes produce exactly that character's entity. */
  lemma EscapeHtmlChar(c: char)
    ensures EscapeHtml([c]) == EscapeChar(c)
  {
    var s1 := ReplaceChar([c], '&', "&amp;");
    ReplaceCharOne(c, '&', "&amp;");
    if c == '&' {
      assert s1 == "&amp;";
      EscapeTail(s1, 1);
      return;
    }
    assert s1 == [c];
    var s2 := ReplaceChar(s1, '<', "&lt;");
    ReplaceCharOne(c, '<', "&lt;");
    if c == '<' {
      assert s2 == "&lt;";
      EscapeTail(s2, 2);
      return;
    }
    var s3 := ReplaceChar(s2, '>', "&gt;");
    ReplaceCharOne(c, '>', "&gt;");
    if c == '>' {
      assert s3 == "&gt;";
      EscapeTail(s3, 3);
      return;
    }
    var s4 := ReplaceChar(s3, '"', "&quot;");
    ReplaceCharOne(c, '"', "&quot;");
    if c == '"' {
      assert s4 == "&quot;";
      EscapeTail(s4, 4);
      return;
    }
    ReplaceCharOne(c, '\'', "&#39;");
  }

  /**
   * Because `&` is replaced first, the five passes never escape an entity
   * they produced themselves: escaping is the per-character substitution.
   */
  lemma {:induction false} EscapeHtmlIsPerChar(s: string)
    ensures EscapeHtml(s) == EscapeEach(s)
    decreases |s|
  {
    if s != [] {
      assert s == [s[0]] + s[1..];
      EscapeHtmlAppend([s[0]], s[1..]);
      EscapeHtmlChar(s[0]);
      EscapeHtmlIsPerChar(s[1..]);
    }
  }

  lemma {:induction false} EscapeEachNoMarkup(s: string)
    ensures NoMarkup(EscapeEach(s))
    decreases |s|
  {
    if s != [] {
      EscapeEachNoMarkup(s[1..]);
      EscapeCharNoMarkup(s[0]);
      NoMarkupConcat(EscapeChar(s[0]), EscapeEach(s[1..]));
    }
  }

  lemma EscapeCharNoMarkup(c: char)
    ensures NoMarkup(EscapeChar(c))
  {
  }

  lemma NoMarkupConcat(a: string, b: string)
    requires NoMarkup(a) && NoMarkup(b)
    ensures NoMarkup(a + b)
  {
  }

  /** Escaped text holds no `<`, `>`, `"` or `'`. */
  lemma EscapeHtmlNoMarkup(s: string)
    ensures NoMarkup(EscapeHtml(s))
  {
    EscapeHtmlIsPerChar(s);
    EscapeEachNoMarkup(s);
  }

  /** Text without `&`, `<`, `>`, `"` and `'` is left as it is. */
  lemma EscapeHtmlPlain(s: string)
    requires '&' !in s && NoMarkup(s)
    ensures EscapeHtml(s) == s
  {
    ReplaceCharAbsent(s, '&', "&amp;");
    ReplaceCharAbsent(s, '<', "&lt;");
    ReplaceCharAbsent(s, '>', "&gt;");
    ReplaceCharAbsent(s, '"', "&quot;");
    ReplaceCharAbsent(s, '\'', "&#39;");
  }

  /** Decoding of the five entities, the inverse of escaping. */
  function UnescapeHtml(t: string): string
    decreases |t|
  {
    if t == [] then []
    else if StartsWith(t, "&amp;") then "&" + UnescapeHtml(t[5..])
    else if StartsWith(t, "&lt;") then "<" + UnescapeHtml(t[4..])
    else if StartsWith(t, "&gt;") then ">" + UnescapeHtml(t[4..])
    else if StartsWith(t, "&quot;") then "\"" + UnescapeHtml(t[6..])
    else if StartsWith(t, "&#39;") then "'" + UnescapeHtml(t[5..])
    else [t[0]] + UnescapeHtml(t[1..])
  }

  /** No information is lost: decoding the escaped text gives the text back. */
  lemma {:induction false} EscapeHtmlRoundTrip(s: string)
    ensures UnescapeHtml(EscapeHtml(s)) == s
  {
    EscapeHtmlIsPerChar(s);
    UnescapeEscapeEach(s);
  }

  lemma UnescapeAmp(rest: string)
    ensures UnescapeHtml("&amp;" + rest) == "&" + UnescapeHtml(rest)
  {
    var t := "&amp;" + rest;
    assert t[..5] == "&amp;" && t[5..] == rest;
  }

  lemma UnescapeLt(rest: string)
    ensures UnescapeHtml("&lt;" + rest) == "<" + UnescapeHtml(rest)
  {
    var t := "&lt;" + rest;
    assert t[1] == 'l';
    DiffersAt(t, "&amp;", 1);
    assert t[..4] == "&lt;" && t[4..] == rest;
  }

  lemma UnescapeGt(rest: string)
    ensures UnescapeHtml("&gt;" + rest) == ">" + UnescapeHtml(rest)
  {
    var t := "&gt;" + rest;
    assert t[1] == 'g';
    DiffersAt(t, "&amp;", 1);
    DiffersAt(t, "&lt;", 1);
    assert t[..4] == "&gt;" && t[4..] == rest;
  }

  lemma UnescapeQuot(rest: string)
    ensures UnescapeHtml("&quot;" + rest) == "\"" + UnescapeHtml(rest)
  {
    var t := "&quot;" + rest;
    assert t[1] == 'q';
    DiffersAt(t, "&amp;", 1);
    DiffersAt(t, "&lt;", 1);
    DiffersAt(t, "&gt;", 1);
    assert t[..6] == "&quot;" && t[6..] == rest;
  }

  lemma UnescapeApos(rest: string)
    ensures UnescapeHtml("&#39;" + rest) == "'" + UnescapeHtml(rest)
  {
    var t := "&#39;" + rest;
    assert t[1] == '#';
    DiffersAt(t, "&amp;", 1);
    DiffersAt(t, "&lt;", 1);
    DiffersAt(t, "&gt;", 1);
    DiffersAt(t, "&quot;", 1);
    assert t[..5] == "&#39;" && t[5..] == rest;
  }

  lemma UnescapePlain(c: char, rest: string)
    requires c != '&'
    ensures UnescapeHtml([c] + rest) == [c] + UnescapeHtml(rest)
  {
    var t := [c] + rest;
    assert t[0] == c && t[1..] == rest;
    assert !StartsWith(t, "&amp;") && !StartsWith(t, "&lt;") && !StartsWith(t, "&gt;")
        && !StartsWith(t, "&quot;") && !StartsWith(t, "&#39;") by {
      DiffersAt(t, "&amp;", 0);
      DiffersAt(t, "&lt;", 0);
      DiffersAt(t, "&gt;", 0);
      DiffersAt(t, "&quot;", 0);
      DiffersAt(t, "&#39;", 0);
    }
  }

  lemma DiffersAt(t: string, e: string, k: nat)
    requires k < |t| && k < |e| && t[k] != e[k]
    ensures !StartsWith(t, e)
  {
    if |e| <= |t| {
      assert t[..|e|][k] != e[k];
    }
  }


  /** Decoding the entity of `c` in front of `rest` gives `c` back. */
  lemma UnescapeEntity(c: char, rest: string)
    ensures UnescapeHtml(EscapeChar(c) + rest) == [c] + UnescapeHtml(rest)
  {
    if c == '&' {
      UnescapeAmp(rest);
    } else if c == '<' {
      UnescapeLt(rest);
    } else if c == '>' {
      UnescapeGt(rest);
    } else if c == '"' {
      UnescapeQuot(rest);
    } else if c == '\'' {
      UnescapeApos(rest);
    } else {
      UnescapePlain(c, rest);
    }
  }

  lemma {:induction false} UnescapeEscapeEach(s: string)
    ensures UnescapeHtml(EscapeEach(s)) == s
    decreases |s|
  {
    if s != [] {
      UnescapeEntity(s[0], EscapeEach(s[1..]));
      UnescapeEscapeEach(s[1..]);
      assert s == [s[0]] + s[1..];
    }
  }

  // ----- Code blocks ------------------------------------------------------

  const Nbsp: char := '\U{A0}'

  /** `line.replace(/ /g, ' ')`: indentation survives as non-breaking spaces. */
  function WithNbsp(line: string): (r: string)
    ensures |r| == |line| && ' ' !in r
    ensures forall i :: 0 <= i < |line| ==> r[i] == if line[i] == ' ' then Nbsp else line[i]
    decreases |line|
  {
    if line == [] then [] else (if line[0] == ' ' then [Nbsp] else [line[0]]) + WithNbsp(line[1..])
  }

  /** The filter `line.trim() || line.length > 0` of the code lines. */
  predicate KeepCodeLine(line: string) {
    JsTrim(line) != "" || |line| > 0
  }

  /** The filter keeps exactly the non-empty lines: its `trim` test adds nothing. */
  lemma KeepCodeLineNonEmpty(line: string)
    ensures KeepCodeLine(line) <==> line != ""
  {
  }

  function FilterCodeLines(lines: seq<string>): seq<string>
    decreases |lines|
  {
    if lines == [] then []
    else FilterCodeLines(lines[..|lines| - 1])
         + (if KeepCodeLine(lines[|lines| - 1]) then [lines[|lines| - 1]] else [])
  }

  /** The lines of a code block, in order, with the empty lines dropped. */
  lemma {:induction false} FilterCodeLinesKeeps(lines: seq<string>)
    ensures forall l :: l in FilterCodeLines(lines) ==> l in lines && l != ""
    ensures forall l :: l in lines && l != "" ==> l in FilterCodeLines(lines)
    decreases |lines|
  {
    if lines != [] {
      var p := lines[..|lines| - 1];
      FilterCodeLinesKeeps(p);
      assert lines == p + [lines[|lines| - 1]];
    }
  }

  /** The filter keeps the lines in the order they come. */
  lemma {:induction false} FilterCodeLinesAppend(a: seq<string>, b: seq<string>)
    ensures FilterCodeLines(a + b) == FilterCodeLines(a) + FilterCodeLines(b)
    decreases |b|
  {
    if b == [] {
      assert a + b == a;
    } else {
      var p := b[..|b| - 1];
      assert (a + b)[..|a + b| - 1] == a + p;
      FilterCodeLinesAppend(a, p);
    }
  }

  /** The escaped text of each `<p>` a code block becomes. */
  function CodeParagraphs(code: string): seq<string> {
    var lines := FilterCodeLines(Split(code, "\n"));
    seq(|lines|, i requires 0 <= i < |lines| => EscapeHtml(WithNbsp(lines[i])))
  }

  /** A block joined from newline-free lines renders as those lines, minus the empty ones. */
  lemma CodeParagraphsOfBlock(block: seq<string>)
    requires forall i :: 0 <= i < |block| ==> '\n' !in block[i]
    ensures var ps := CodeParagraphs(Join(block, "\n"));
            var kept := FilterCodeLines(block);
            |ps| == |kept| && forall i :: 0 <= i < |ps| ==> ps[i] == EscapeHtml(WithNbsp(kept[i]))
  {
    if block == [] {
      assert Split("", "\n") == [""] by { assert FindFrom("", "\n", 0) == None; }
      assert FilterCodeLines([""]) == [];
    } else {
      SplitJoin(block, '\n');
    }
  }

  // ----- One slide --------------------------------------------------------

  datatype SlideKind = TitleSlide | ModuleDivider | ContentSlide

  /** The slide's kind: the first slide is the title slide whatever it holds. */
  function KindOf(slide: Slide, index: nat): (k: SlideKind)
    ensures k == TitleSlide <==> index == 0
    ensures k == ModuleDivider <==> index != 0 && (slide.isModule || StartsWith(slide.title, "Module"))
  {
    if index == 0 then TitleSlide
    else if slide.isModule || StartsWith(slide.title, "Module") then ModuleDivider
    else ContentSlide
  }

  const MaxBullets := 7

  /** The style that varies on content slides. */
  datatype Layout = Layout(fontSize: string, lineHeight: string, headerMargin: string)

  /**
   * What the HTML of one slide shows. `heading` and `subheading` are
   * escaped; `paragraphs` and `items` are the slide's text and bullets,
   * emitted as they are; `code` holds the escaped paragraph texts of each
   * code block; `layout` is set on content slides only.
   */
  datatype Rendered = Rendered(
    kind: SlideKind,
    heading: string,
    subheading: Option<string>,
    paragraphs: seq<string>,
    items: seq<string>,
    code: seq<seq<string>>,
    layout: Option<Layout>)

  function ContentLayout(shown: nat, textLines: nat, hasSubtitle: bool): (l: Layout)
    ensures l.fontSize == "11pt" <==> shown + textLines > 10
    ensures l.fontSize == "12pt" <==> shown + textLines <= 10
    ensures l.lineHeight == (if shown + textLines > 10 then "1.15" else "1.2")
    ensures l.headerMargin == (if hasSubtitle then "10pt" else "14pt")
  {
    var dense := shown + textLines > 10;
    Layout(if dense then "11pt" else "12pt", if dense then "1.15" else "1.2",
           if hasSubtitle then "10pt" else "14pt")
  }

  function CreateSlide(slide: Slide, index: nat): (r: Rendered)
    ensures r.kind == KindOf(slide, index)
    ensures r.heading == EscapeHtml(slide.title)
    ensures r.subheading == if slide.subtitle == "" then None else Some(EscapeHtml(slide.subtitle))
    ensures r.kind == TitleSlide ==> r.paragraphs == slide.text && r.items == [] && r.code == []
    ensures r.kind == ModuleDivider ==> r.paragraphs == [] && r.items == slide.bullets && r.code == []
    ensures r.kind == ContentSlide ==>
              r.paragraphs == slide.text
              && |r.items| == (if |slide.bullets| < MaxBullets then |slide.bullets| else MaxBullets)
              && r.items == slide.bullets[..|r.items|]
              && |r.code| == |slide.codeBlocks|
              && (forall i :: 0 <= i < |r.code| ==> r.code[i] == CodeParagraphs(slide.codeBlocks[i]))
    ensures r.layout.Some? <==> r.kind == ContentSlide
    ensures r.kind == ContentSlide ==>
              r.layout == Some(ContentLayout(|r.items|, |slide.text|, slide.subtitle != ""))
  {
    var kind := KindOf(slide, index);
    var heading := EscapeHtml(slide.title);
    var sub := if slide.subtitle == "" then None else Some(EscapeHtml(slide.subtitle));
    match kind
    case TitleSlide => Rendered(kind, heading, sub, slide.text, [], [], None)
    case ModuleDivider => Rendered(kind, heading, sub, [], slide.bullets, [], None)
    case ContentSlide =>
      var shown := if |slide.bullets| <= MaxBullets then slide.bullets else slide.bullets[..MaxBullets];
      var code := seq(|slide.codeBlocks|, i requires 0 <= i < |slide.codeBlocks| =>
                        CodeParagraphs(slide.codeBlocks[i]));
      Rendered(kind, heading, sub, slide.text, shown, code,
               Some(ContentLayout(|shown|, |slide.text|, slide.subtitle != "")))
  }

  /** A content slide shows at most seven bullets, and the first ones. */
  lemma ContentBulletsCapped(slide: Slide, index: nat)
    requires CreateSlide(slide, index).kind == ContentSlide
    ensures var items := CreateSlide(slide, index).items;
            |items| <= MaxBullets && items <= slide.bullets
            && (|slide.bullets| <= MaxBullets ==> items == slide.bullets)
  {
  }

  /** The font shrinks to 11pt exactly when the shown bullets and text lines exceed ten. */
  lemma ContentFontSize(slide: Slide, index: nat)
    requires CreateSlide(slide, index).kind == ContentSlide
    ensures var l := CreateSlide(slide, index).layout.value;
            var shown := if |slide.bullets| < MaxBullets then |slide.bullets| else MaxBullets;
            l.fontSize == "11pt" <==> shown + |slide.text| > 10
  {
  }

  // ----- File names -------------------------------------------------------

  /** `slide-${String(i + 1).padStart(3, '0')}.html` for the slide at index `i`. */
  function SlideFileName(i: nat): string {
    "slide-" + PadStart(ToDigits(i + 1, 10), 3, '0') + ".html"
  }

  /** The number in the file name, between `slide-` and `.html`. */
  function FileNumber(name: string): string
    requires |name| >= 11
  {
    name[6..|name| - 5]
  }

  /** The name's number is `i + 1` in decimal, padded with zeros to at least three digits. */
  lemma SlideFileNameNumber(i: nat)
    ensures var name := SlideFileName(i);
            |name| >= 14 && StartsWith(name, "slide-") && EndsWith(name, ".html")
            && AllDigits(FileNumber(name), 10) && Value(FileNumber(name), 10) == i + 1
            && (i + 1 < 1000 ==> |FileNumber(name)| == 3)
  {
    var d := PadStart(ToDigits(i + 1, 10), 3, '0');
    var name := SlideFileName(i);
    assert name[..6] == "slide-";
    assert name[|name| - 5..] == ".html";
    assert FileNumber(name) == d;
    PaddedValue(i + 1, 10, 3);
    if i + 1 < 1000 {
      ToDigitsShort(i + 1);
    }
  }

  lemma {:induction false} ToDigitsShort(n: nat)
    requires n < 1000
    ensures n < 10 ==> |ToDigits(n, 10)| == 1
    ensures n < 100 ==> |ToDigits(n, 10)| <= 2
    ensures |ToDigits(n, 10)| <= 3
  {
    if n >= 10 {
      DivMod(n, 10);
      assert n / 10 < 100;
      assert n < 100 ==> n / 10 < 10;
      ToDigitsShort(n / 10);
    }
  }

  /** Different slides are written to different files. */
  lemma SlideFileNameInjective(i: nat, j: nat)
    requires SlideFileName(i) == SlideFileName(j)
    ensures i == j
  {
    SlideFileNameNumber(i);
    SlideFileNameNumber(j);
  }
}

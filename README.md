# Presentation scripts: a Dafny model

This project models the text handling of three presentation-building
scripts:

- **`presentations/scripts/generate-presentation.js`** turns one Markdown
  file into HTML slides.
  - `parseMarkdown` removes the YAML front matter and splits the text at
    `---` lines. It keeps the parts that parse into a slide with a title,
    a bullet or a text line.
  - `parseSlide` reads one part line by line. It tracks HTML comments and
    fenced code blocks, and collects the title, the subtitle, the bullets,
    the text lines and the code blocks. It cleans `**bold**`, `_italic_`
    and `` `code` `` markup.
  - `createSlideHTML` decides what one slide shows: a title slide, a
    module divider or a content slide. A content slide shows at most seven
    bullets and has a density-dependent font size. Code blocks become
    escaped paragraphs with non-breaking indentation.
  - `escapeHtml` escapes the five HTML-special characters.
  - The slide files are named `slide-NNN.html`.
- **`analyze_pptx_unicode.py`** scans every shape of every slide for
  characters of interest.
  - It sorts each character into one of three buckets: broken (the
    replacement character, private use, or category `Co`/`Cn`), emoji
    (code-point ranges), or other special (beyond U+2000).
  - It de-duplicates each bucket by `U+XXXX` label.
  - It reports the slides that have findings, numbered from 1, together
    with the running totals.
- **`extract_pptx_text.py`** picks the `ppt/slides/slide*.xml` members of
  the archive and sorts them by the number after `slide`. For each slide
  it keeps the text runs that are not blank, concatenates them, splits
  the result at runs of newlines, and emits each stripped non-empty
  paragraph, or the `[No text content]` marker.

Where a source function is a loop, it is a `method` with a `for` loop.
Each method is proved equal to a recursive specification function over the
prefix of the input read so far, and the properties are lemmas about those
functions. Pure helpers are functions.

The modules are:

- `Wrappers`
- `TextUtil`: prefix and suffix tests, search, `split`/`join`, and
  JavaScript `trim` versus Python `strip`.
- `Numerals`: decimal and hexadecimal rendering, `padStart` and reading
  digits back.
- `MarkdownSlides`
- `SlideHtml`
- `UnicodeAnalysis`
- `PptxText`

Points where the code behaves otherwise than a first reading suggests:

- Front matter is removed only when `\n---\n` occurs after the opening
  `---\n`. The regular expression needs a newline of its own before the
  closing `---`, so an empty block `---\n---\n` at the start is kept
  (`MarkdownSlides.EmptyFrontMatterKept`).
- A line that contains `-->` ends a comment and is itself skipped, even
  outside a comment. While a comment is open, code fences are ignored.
- The code-line filter `line.trim() || line.length > 0` keeps exactly the
  non-empty lines: its `trim` test adds nothing.
- The emoji range `0x24C2..0x1F251` covers two of the seven other ranges
  the function lists (U+2600–U+27BF), as well as the CJK and Hangul
  blocks. So "emoji" means any code point in U+24C2–U+1F251 or in one of
  the five listed blocks from U+1F300 on (`UnicodeAnalysis.IsEmoji`).
- A slide is recorded when it has any finding, including only "other
  special" characters, while the totals count only emoji and broken
  characters.

## Model

Several source operations are plain definitions without a contract of
their own. Their rows are the lemmas that state what they do, and those
rows cite the same source lines:

- `SlideHtml.EscapeHtml` (generate-presentation.js:228-234): see
  `EscapeHtmlIsPerChar`, `EscapeHtmlRoundTrip` and `EscapeHtmlNoMarkup`.
- `MarkdownSlides.ReplaceDelimited` and `MarkdownSlides.CleanMarkdown`
  (generate-presentation.js:100-102 and 106-108): see `FindLazyClose`,
  `ReplaceDelimitedPrefix`, `ReplaceDelimitedPair`, `ReplaceDelimitedSpan`,
  `CleanKeepsPlain`, `CleanThrough`, `CleanBold`, `CleanItalic`, `CleanCode`
  and `CleanTwoSpans`.
- `MarkdownSlides.Classify` and `MarkdownSlides.Step`
  (generate-presentation.js:56-110): see `ParseLine`, `StepRules`,
  `StepFields` and the `Run…` lemmas.
- `UnicodeAnalysis.IsBroken` (analyze_pptx_unicode.py:43-63): see
  `BrokenCases`.
- `UnicodeAnalysis.Verdict` (analyze_pptx_unicode.py:135-149): see
  `VerdictRules`.
- `UnicodeAnalysis.Dedup` (analyze_pptx_unicode.py:152-154): see
  `DedupKeys`, `DedupFromInput` and `DedupFirstOccurrences`.
- `PptxText.SortByKey` (extract_pptx_text.py:14): see `SortByKeyPerm`,
  `SortByKeySorted` and `SortByKeyStable`.
- `PptxText.SplitNewlineRuns` (extract_pptx_text.py:51): see
  `SplitRunsNoNewline`, `SplitRunsJoin`, `SplitRunsIsSplitOfSqueeze` and
  `SplitRunsNonEmpty`.

| member | source | states |
|---|---|---|
| `TextUtil.FindFrom` | presentations/scripts/generate-presentation.js:62 | the result is the first index at or after `from` where the needle occurs; none means it occurs nowhere from there on |
| `TextUtil.ContainsFind` | presentations/scripts/generate-presentation.js:62 | `includes` holds exactly when the search from the start finds an index |
| `TextUtil.Split` | presentations/scripts/generate-presentation.js:44 | `split` gives at least one part; joining the parts with the separator gives back the input; no part contains the separator; and no occurrence starts inside a part other than the last, even one running into the separator after it. So each cut is at the leftmost occurrence, and the parts are determined |
| `TextUtil.SplitJoin` | presentations/scripts/generate-presentation.js:44 | splitting a join of parts that are free of the one-character separator gives back those parts |
| `TextUtil.TrimByShape` | presentations/scripts/generate-presentation.js:56 | trimming gives the empty string exactly when every character is whitespace; otherwise the result neither starts nor ends with whitespace; it holds only characters of the input |
| `TextUtil.TrimStartShape` | presentations/scripts/generate-presentation.js:56 | the leading trim removes a prefix made only of whitespace and leaves a non-whitespace first character |
| `TextUtil.TrimEndShape` | extract_pptx_text.py:53-54 | the trailing trim removes a suffix made only of whitespace and leaves a non-whitespace last character |
| `Numerals.ToDigits` | presentations/scripts/generate-presentation.js:250 | a number's digit string is non-empty, made only of digits of the base, and has no leading zero unless it is `0` |
| `Numerals.ValueOfToDigits` | presentations/scripts/generate-presentation.js:250 | reading the digit string of `n` back gives `n` |
| `Numerals.PadStart` | presentations/scripts/generate-presentation.js:250 | `padStart` gives the width or the original length, whichever is larger; the original string is its suffix; every added character is the fill |
| `Numerals.LeadingZeros` | analyze_pptx_unicode.py:78 | leading zeros do not change a digit string's value |
| `Numerals.PaddedValue` | analyze_pptx_unicode.py:78 | a zero-padded digit string is all digits and still reads back as the number |
| `MarkdownSlides.StripFrontMatter` | presentations/scripts/generate-presentation.js:24 | the result is a suffix of the input; the input is unchanged unless it starts with `---\n`; when it changes, the cut ends at the first later `\n---\n` found from the end of the opening line; it is unchanged exactly when no such closing line exists |
| `MarkdownSlides.EmptyFrontMatterKept` | presentations/scripts/generate-presentation.js:24 | a front-matter block with nothing between its two `---` lines is not removed |
| `MarkdownSlides.FindLazyClose` | presentations/scripts/generate-presentation.js:100-102 | the lazy `(.*?)` stops at the first closing delimiter, and every character it passes over is a non-line-terminator |
| `MarkdownSlides.ReplaceDelimitedPrefix` | presentations/scripts/generate-presentation.js:100-102 | text holding no delimiter's first character is copied unchanged, and the global replace goes on with what follows it |
| `MarkdownSlides.ReplaceDelimitedPair` | presentations/scripts/generate-presentation.js:100-102 | a delimited span at the start, with no delimiter character and no line break inside, is replaced by its contents wrapped in the given tags, and the global replace resumes right after the closing delimiter |
| `MarkdownSlides.ReplaceDelimitedSpan` | presentations/scripts/generate-presentation.js:100-102 | the same for a span anywhere in the line: the text before it is kept, the span is rewritten, and the rest of the line is rewritten in turn |
| `MarkdownSlides.CleanKeepsPlain` | presentations/scripts/generate-presentation.js:106-108 | text without `*`, `_` or backquote passes the markup cleaning unchanged |
| `MarkdownSlides.CleanThrough` | presentations/scripts/generate-presentation.js:106-108 | plain text in front of a line passes all three rewrites unchanged, and the rest of the line is cleaned on its own |
| `MarkdownSlides.CleanBold` | presentations/scripts/generate-presentation.js:100 | `a**x**b` becomes `a<b>x</b>` followed by the cleaned `b`, for plain `a` and `x` |
| `MarkdownSlides.CleanItalic` | presentations/scripts/generate-presentation.js:101 | `a_x_b` becomes `a<i>x</i>` followed by the cleaned `b`, for plain `a` and `x` |
| `MarkdownSlides.CleanCode` | presentations/scripts/generate-presentation.js:102 | ``a`x`b`` becomes `a`, then `x`, then the cleaned `b`, for plain `a` and `x` |
| `MarkdownSlides.CleanTwoSpans` | presentations/scripts/generate-presentation.js:100-102 | a line with a bold span and a later italic span has both rewritten and the plain text between and around them kept |
| `MarkdownSlides.ParseLine` | presentations/scripts/generate-presentation.js:56-110 | one loop iteration updates the parser's variables as the line's kind dictates: comment start or end, fence open or close, code line, skipped line, heading, bullet or text |
| `MarkdownSlides.ParseSlide` | presentations/scripts/generate-presentation.js:43-114 | the slide returned is the one the per-line rules build from the part's lines, read in order from the initial state |
| `MarkdownSlides.StepRules` | presentations/scripts/generate-presentation.js:59-86 | a `-->` line only closes the comment; inside a comment nothing changes; outside one, a `<!--` line opens a comment and changes nothing else; inside a code block every other line is kept unmodified; a fence flips the code-block flag and leaves the title, subtitle, bullets and text alone |
| `MarkdownSlides.StepFields` | presentations/scripts/generate-presentation.js:92-110 | only a bullet line adds a bullet, only a text line adds a text line, only `# ` sets the title, only `## ` sets the subtitle |
| `MarkdownSlides.RunBullets` | presentations/scripts/generate-presentation.js:97-103 | the bullets are the cleaned bullet lines, in order |
| `MarkdownSlides.RunText` | presentations/scripts/generate-presentation.js:104-110 | the text entries are the cleaned text lines, in order |
| `MarkdownSlides.RunTitle` | presentations/scripts/generate-presentation.js:92-94 | the title is the last `# ` heading's text, or empty when there is none |
| `MarkdownSlides.RunSubtitle` | presentations/scripts/generate-presentation.js:95-96 | the subtitle is the last `## ` heading's text, or empty when there is none |
| `MarkdownSlides.RunIsModule` | presentations/scripts/generate-presentation.js:93 | the slide is a module exactly when some `# ` heading contains `Module` |
| `MarkdownSlides.RunCodeBlocks` | presentations/scripts/generate-presentation.js:69-80 | there is one code block per closing fence |
| `MarkdownSlides.RunNoPendingCode` | presentations/scripts/generate-presentation.js:72-74 | outside a code block no code lines are pending |
| `MarkdownSlides.ParsePart` | presentations/scripts/generate-presentation.js:30-36 | a part contributes its parsed slide exactly when its trimmed text is non-empty and the slide has a title, a bullet or a text line |
| `MarkdownSlides.ParseMarkdown` | presentations/scripts/generate-presentation.js:20-41 | the slides are those kept from the parts of the text after the front matter is removed, split at `\n---\n`, in order |
| `MarkdownSlides.KeepSlidesContent` | presentations/scripts/generate-presentation.js:34 | every kept slide has a title, a bullet or a text line, and there are no more slides than parts |
| `MarkdownSlides.DropsEmptySlides` | presentations/scripts/generate-presentation.js:34 | a part without title, bullets or text adds no slide |
| `MarkdownSlides.KeepsContentSlides` | presentations/scripts/generate-presentation.js:31-35 | a non-blank part with content adds its slide at the end |
| `SlideHtml.ReplaceCharAppend` | presentations/scripts/generate-presentation.js:229 | a global one-character replace distributes over concatenation |
| `SlideHtml.EscapeHtmlIsPerChar` | presentations/scripts/generate-presentation.js:228-234 | the five chained global replaces equal replacing each character by its entity, with `&` first so no entity is escaped twice |
| `SlideHtml.EscapeHtmlChar` | presentations/scripts/generate-presentation.js:228-234 | one character escapes to its entity, or to itself when it is not special |
| `SlideHtml.EscapeHtmlAppend` | presentations/scripts/generate-presentation.js:228-234 | escaping distributes over concatenation |
| `SlideHtml.EscapeHtmlNoMarkup` | presentations/scripts/generate-presentation.js:228-234 | escaped text contains no `<`, `>`, `"` or `'` |
| `SlideHtml.EscapeHtmlPlain` | presentations/scripts/generate-presentation.js:228-234 | text without special characters is unchanged by escaping |
| `SlideHtml.EscapeHtmlRoundTrip` | presentations/scripts/generate-presentation.js:228-234 | decoding the five entities gives back the original text, so escaping loses nothing |
| `SlideHtml.UnescapeEntity` | presentations/scripts/generate-presentation.js:229-233 | each character's entity decodes back to that character, whatever follows it |
| `SlideHtml.WithNbsp` | presentations/scripts/generate-presentation.js:203 | every space becomes U+00A0 and every other character is kept, so the length is unchanged and no space is left |
| `SlideHtml.KeepCodeLineNonEmpty` | presentations/scripts/generate-presentation.js:198 | the code-line filter keeps a line exactly when it is non-empty |
| `SlideHtml.FilterCodeLinesKeeps` | presentations/scripts/generate-presentation.js:198 | the filtered lines are exactly the non-empty lines of the block |
| `SlideHtml.FilterCodeLinesAppend` | presentations/scripts/generate-presentation.js:198 | filtering a concatenation filters each part and concatenates, so the kept lines stay in their order |
| `SlideHtml.CodeParagraphsOfBlock` | presentations/scripts/generate-presentation.js:196-205 | a block joined from newline-free lines renders as one escaped, non-breaking-spaced paragraph per non-empty line, in order |
| `SlideHtml.KindOf` | presentations/scripts/generate-presentation.js:120-121 | the first slide is the title slide whatever it holds; any later slide is a module divider exactly when it is marked as a module or its title starts with `Module` |
| `SlideHtml.ContentLayout` | presentations/scripts/generate-presentation.js:178-180 | the font is 11pt with line height 1.15 exactly when more than ten lines are shown, and 12pt with 1.2 otherwise; the header margin is 10pt with a subtitle and 14pt without one |
| `SlideHtml.CreateSlide` | presentations/scripts/generate-presentation.js:116-219 | the heading and subheading are escaped (no subheading for an empty subtitle); a title slide shows the text only; a module divider shows every bullet only; a content slide shows the text, the first `min(7, n)` bullets and every code block's paragraphs, and only it has a layout, which is `ContentLayout` of the number of bullets shown, the number of text lines and whether there is a subtitle |
| `SlideHtml.ContentBulletsCapped` | presentations/scripts/generate-presentation.js:174-175 | a content slide shows at most seven bullets, a prefix of the slide's bullets, and all of them when there are at most seven |
| `SlideHtml.ContentFontSize` | presentations/scripts/generate-presentation.js:178-179 | on a content slide the font shrinks exactly when the shown bullets plus the text lines exceed ten |
| `SlideHtml.SlideFileNameNumber` | presentations/scripts/generate-presentation.js:250 | the file name is `slide-`, the decimal digits of `i + 1` padded to at least three, and `.html`; for slides up to 999 the number has exactly three digits |
| `SlideHtml.SlideFileNameInjective` | presentations/scripts/generate-presentation.js:248-251 | different slides get different file names, so no file overwrites another |
| `UnicodeAnalysis.IsEmoji` | analyze_pptx_unicode.py:11-40 | a character is an emoji exactly when its code point lies in one of the listed ranges; nothing below U+24C2 is |
| `UnicodeAnalysis.BrokenCases` | analyze_pptx_unicode.py:43-63 | U+FFFD and the three private-use ranges are broken whatever the category; any other character is broken exactly when its category is `Co` or `Cn` |
| `UnicodeAnalysis.BrokenIndependentOfCategory` | analyze_pptx_unicode.py:46-56 | for the fixed cases the verdict does not depend on the category data |
| `UnicodeAnalysis.CodePointLabelValue` | analyze_pptx_unicode.py:78 | the label is `U+` followed by at least four upper-case hexadecimal digits whose value is the code point |
| `UnicodeAnalysis.CodePointLabelInjective` | analyze_pptx_unicode.py:78 | different characters get different labels, so de-duplication by label is de-duplication by character |
| `UnicodeAnalysis.ExtractTextFromShape` | analyze_pptx_unicode.py:86-98 | the text is the shape's `text`, if present, followed by every run of every paragraph of its text frame, if present, joined with newlines |
| `UnicodeAnalysis.ShapeTextSplits` | analyze_pptx_unicode.py:98 | when no part holds a newline, splitting the shape text at newlines gives back the parts |
| `UnicodeAnalysis.VerdictRules` | analyze_pptx_unicode.py:135-149 | ASCII and whitespace are never recorded; broken wins over emoji; the third bucket takes exactly the non-broken non-emoji characters beyond U+2000 |
| `UnicodeAnalysis.NonAsciiSpaceNotRecorded` | analyze_pptx_unicode.py:135 | non-ASCII whitespace such as U+3000 and U+00A0 is skipped |
| `UnicodeAnalysis.CollectSorted` | analyze_pptx_unicode.py:138-149 | every recorded entry is the character's info and sits in the bucket its verdict names |
| `UnicodeAnalysis.CollectCounts` | analyze_pptx_unicode.py:133-149 | the three lists together hold one entry per recorded character |
| `UnicodeAnalysis.IndexOfKey` | analyze_pptx_unicode.py:152 | the dictionary lookup finds an entry with that code point, or reports that there is none |
| `UnicodeAnalysis.UpsertKeys` | analyze_pptx_unicode.py:152 | assigning into the dictionary keeps keys distinct, adds exactly the new key and takes values only from the old entries and the new one |
| `UnicodeAnalysis.DedupKeys` | analyze_pptx_unicode.py:152-154 | the de-duplicated list has distinct code points, exactly the input's code points, and is no longer than the input |
| `UnicodeAnalysis.DedupFromInput` | analyze_pptx_unicode.py:152-154 | every de-duplicated entry comes from the input |
| `UnicodeAnalysis.DedupFirstOccurrences` | analyze_pptx_unicode.py:152-154 | when equal code points carry equal records, de-duplication keeps the first occurrence of each, in input order |
| `UnicodeAnalysis.CollectedKeyFunctional` | analyze_pptx_unicode.py:138-149 | within each bucket, equal code points carry equal records |
| `UnicodeAnalysis.DedupNonEmpty` | analyze_pptx_unicode.py:156 | de-duplication empties a list exactly when it was empty |
| `UnicodeAnalysis.HasIssuesRecorded` | analyze_pptx_unicode.py:151-156 | a slide has findings exactly when at least one of its characters was recorded |
| `UnicodeAnalysis.FindingsNumbered` | analyze_pptx_unicode.py:117-157 | the findings are numbered from 1 up to the slide count in strictly increasing order, and each has an issue |
| `UnicodeAnalysis.FindingsOfSlide` | analyze_pptx_unicode.py:117-157 | there is a finding for slide `n` exactly when `n` is a slide number and that slide's de-duplicated findings are not all empty |
| `UnicodeAnalysis.FindingsAreOwn` | analyze_pptx_unicode.py:117-157 | every finding carries a slide number from 1 to the slide count, and is exactly what that slide's scan and de-duplication produce |
| `UnicodeAnalysis.FindingsExactly` | analyze_pptx_unicode.py:117-157 | there is a finding for slide `n` exactly when `n` is a slide number and some character of that slide was recorded |
| `UnicodeAnalysis.RecordChar` | analyze_pptx_unicode.py:135-149 | one character is added to its bucket, and each total grows by exactly what its bucket grew by |
| `UnicodeAnalysis.ScanText` | analyze_pptx_unicode.py:133-149 | scanning a text continues the buckets from the characters before it, with the totals in step |
| `UnicodeAnalysis.ScanSlide` | analyze_pptx_unicode.py:118-149 | a slide's buckets are those of its shapes' texts in order, and the totals grow by the emoji and broken entries |
| `UnicodeAnalysis.AnalyzePresentation` | analyze_pptx_unicode.py:101-163 | a presentation that cannot be opened gives no report; otherwise the report holds the slide count, the findings of the slides with issues, and the emoji and broken totals |
| `PptxText.SlideMembers` | extract_pptx_text.py:13 | a member is selected exactly when it is in the archive and starts with `ppt/slides/slide` and ends with `.xml`; no member is added |
| `PptxText.SlideMembersCount` | extract_pptx_text.py:13 | each selected name occurs as often as in the archive, and the others do not occur |
| `PptxText.FindSlideMatch` | extract_pptx_text.py:14 | the search finds the first position where `slide` is followed by a digit, or none exists |
| `PptxText.DigitsEnd` | extract_pptx_text.py:14 | the `\d+` run of digits is maximal |
| `PptxText.SlideNumberDigits` | extract_pptx_text.py:14 | the search fails exactly when no `slide` is followed by a digit; the captured group is one or more ASCII digits |
| `PptxText.SlideNumberPlace` | extract_pptx_text.py:14 | the captured group is the maximal digit run right after the leftmost matching `slide` |
| `PptxText.SlideNumberIsDecimal` | extract_pptx_text.py:14 | the captured group is a non-empty decimal numeral, so `int` can read it |
| `PptxText.FirstUnnumbered` | extract_pptx_text.py:14 | there is no error exactly when every member has a number; otherwise the error names the first member without one |
| `PptxText.SlideRefs` | extract_pptx_text.py:14 | the sort key fails exactly when some member has no number, and the error names the first such member; otherwise each member gets its captured number and that number's value |
| `PptxText.SortByKeyPerm` | extract_pptx_text.py:14 | sorting is a permutation |
| `PptxText.SortByKeySorted` | extract_pptx_text.py:14 | sorting orders the members by numeric key |
| `PptxText.SortByKeyStable` | extract_pptx_text.py:14 | sorting is stable: the members with any one key keep their archive order |
| `PptxText.SortByKeyNames` | extract_pptx_text.py:14 | sorting keeps exactly the same member names, with their multiplicities |
| `PptxText.SlideRefsNames` | extract_pptx_text.py:14 | when the keys are computed, the references name the members in order |
| `PptxText.SelectSlidesOrder` | extract_pptx_text.py:13-14 | the slides processed are exactly the selected members, in numeric order |
| `PptxText.KeptRunsExactly` | extract_pptx_text.py:37-40 | a run's text is kept exactly when it is present and not blank after `strip` |
| `PptxText.KeptRunsAppend` | extract_pptx_text.py:37-40 | filtering a concatenation filters each part and concatenates, so kept runs stay in document order |
| `PptxText.KeepRuns` | extract_pptx_text.py:37-40 | the loop keeps the non-blank texts, in document order |
| `PptxText.SkipNewlines` | extract_pptx_text.py:51 | from a given index the skip passes the maximal run of newlines there and stops at a non-newline or the end |
| `PptxText.SplitRunsNoNewline` | extract_pptx_text.py:51 | `re.split(r'\n+')` gives at least one piece, and no piece contains a newline |
| `PptxText.SplitRunsConcat` | extract_pptx_text.py:51 | the pieces concatenated are the text with its newlines removed |
| `PptxText.SplitRunsJoin` | extract_pptx_text.py:51 | the pieces joined with single newlines give the text with each maximal run of newlines collapsed to one newline |
| `PptxText.SplitRunsIsSplitOfSqueeze` | extract_pptx_text.py:51 | the pieces are exactly the split of the collapsed text at each newline, so text on either side of a run of newlines lands in different pieces |
| `PptxText.SplitRunsNonEmpty` | extract_pptx_text.py:51 | only the first and last pieces can be empty, and the first only when the text is empty or starts with a newline |
| `PptxText.Paragraphs` | extract_pptx_text.py:52-54 | no emitted paragraph is empty |
| `PptxText.ParagraphsStripped` | extract_pptx_text.py:52-54 | every emitted paragraph neither starts nor ends with whitespace |
| `PptxText.ParagraphsFrom` | extract_pptx_text.py:52-54 | a piece that is not blank after `strip` yields at least one paragraph |
| `PptxText.StripParagraphs` | extract_pptx_text.py:52-55 | the loop emits the stripped non-blank pieces, in order |
| `PptxText.NoTextGivesMarker` | extract_pptx_text.py:56-57 | a slide whose runs are all absent or blank prints only `[No text content]` |
| `PptxText.KeptRunGivesParagraph` | extract_pptx_text.py:43-55 | a slide with a kept run prints the paragraphs of its joined text, and at least one |
| `PptxText.SlideLines` | extract_pptx_text.py:36-57 | a slide's printed lines are the paragraphs of its kept runs, or the marker when there are none |
| `PptxText.OutputsAt` | extract_pptx_text.py:18-19 | the `i`-th output belongs to the `i`-th slide of the sorted selection, with its captured number |
| `PptxText.ExtractTextFromPptx` | extract_pptx_text.py:8-59 | the result is the unnumbered-member error, or the slide count with one numbered output per sorted slide |

## Left out

- Reading and writing files, the zip archive, XML parsing and namespaces,
  python-pptx's `Presentation`, and html2pptx/pptxgenjs: the inputs are
  entered as values. The archive is its member names plus a function from a
  member to its `a:t` texts in document order. A presentation is an
  `Option` of slides made of shapes, `None` when it cannot be opened.
- Console output, including the framing lines, the per-finding printout of
  `analyze_pptx_unicode.py` and the progress messages. The models return
  what would be printed, as values.
- The HTML template markup and CSS text of `createSlideHTML`, the colour
  table and the `isSummary` flag, which is computed but never used. The
  model records each slide's decisions (kind, escaping, shown items,
  layout), not the markup.
- `unicodedata.category` is passed in as a function parameter. `unicodedata.name`
  is left out because no modelled decision depends on it.
- The open error of `extract_pptx_text.py` at line 11 is not modelled; an
  unnumbered member is the only error path.
- `combine_presentations.py`, `read_pptx.py` and the JavaScript entry point
  `main` beyond the file naming: `combine_presentations.py` and
  `read_pptx.py` are not part of this model.
- Python's `hasattr` on a shape is modelled as the `Option` fields of
  `Shape`.
- PptxText.SlideNumber: `\d` is modelled as the ASCII digits only. Python's
  `\d` and `int` also accept other Unicode decimal digits, and a member
  name with such digits right after `slide` is not modelled.
- A `char` is a Unicode scalar value, so lone surrogates are not modelled.
- The loop bodies are separate methods (`ParseLine`, `ParsePart`,
  `RecordChar`, `ScanText`, `ScanSlide`, `KeepRuns`, `StripParagraphs`),
  and the `continue` exits are early returns.
- MarkdownSlides.RunCodeBlocks: states only the number of code blocks,
  not their contents.
- SlideHtml.CodeParagraphsOfBlock: requires newline-free lines and is not
  linked to the parser's code lines.

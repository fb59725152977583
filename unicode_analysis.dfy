/**
 * analyze_pptx_unicode.py: which characters of a presentation's text count
 * as emoji, as broken Unicode or as other special characters, how each is
 * labelled, and the per-slide collection, counting and de-duplication of
 * `analyze_presentation`.
 */
module UnicodeAnalysis {
  import opened Wrappers
  import opened TextUtil
  import opened Numerals

  // ----- Character classes ------------------------------------------------

  /** `is_emoji`: the range tests in their source order. */
  function IsEmoji(c: char): (r: bool)
    ensures var cp := c as int;
            r <==> (0x24C2 <= cp <= 0x1F251) || (0x1F300 <= cp <= 0x1F5FF)
                   || (0x1F600 <= cp <= 0x1F64F) || (0x1F680 <= cp <= 0x1F6FF)
                   || (0x1F900 <= cp <= 0x1F9FF) || (0x1FA70 <= cp <= 0x1FAFF)
    ensures (c as int) < 0x24C2 ==> !r
  {
    var cp := c as int;
    if 0x1F600 <= cp <= 0x1F64F then true
    else if 0x1F300 <= cp <= 0x1F5FF then true
    else if 0x1F680 <= cp <= 0x1F6FF then true
    else if 0x1F900 <= cp <= 0x1F9FF then true
    else if 0x1FA70 <= cp <= 0x1FAFF then true
    else if 0x2600 <= cp <= 0x26FF then true
    else if 0x2700 <= cp <= 0x27BF then true
    else if 0x24C2 <= cp <= 0x1F251 then true
    else false
  }

  /** The replacement character and the three private-use areas. */
  predicate FixedBroken(c: char) {
    var cp := c as int;
    c == '\U{FFFD}' || (0xE000 <= cp <= 0xF8FF) || (0xF0000 <= cp <= 0xFFFFD)
    || (0x100000 <= cp <= 0x10FFFD)
  }

  /**
   * `is_broken_unicode`, with the Unicode database's general category of
   * each character passed in as `category`.
   */
  function IsBroken(c: char, category: char -> string): bool {
    if c == '\U{FFFD}' then true
    else if 0xE000 <= c as int <= 0xF8FF then true
    else if 0xF0000 <= c as int <= 0xFFFFD then true
    else if 0x100000 <= c as int <= 0x10FFFD then true
    else category(c) == "Co" || category(c) == "Cn"
  }

  /**
   * The replacement character and private-use code points are broken
   * whatever the category database says; every other character is broken
   * exactly when its category is `Co` or `Cn`.
   */
  lemma BrokenCases(c: char, category: char -> string)
    ensures FixedBroken(c) ==> IsBroken(c, category)
    ensures !FixedBroken(c) ==> (IsBroken(c, category) <==> category(c) in ["Co", "Cn"])
  {
  }

  /** The verdict on a private-use character does not depend on the category oracle. */
  lemma BrokenIndependentOfCategory(c: char, cat1: char -> string, cat2: char -> string)
    requires FixedBroken(c)
    ensures IsBroken(c, cat1) == IsBroken(c, cat2) == true
  {
  }

  // ----- Character records ------------------------------------------------

  /** `f'U+{code_point:04X}'`. */
  function CodePointLabel(c: char): string {
    "U+" + PadStart(ToDigits(c as int, 16), 4, '0')
  }

  /** The label is `U+` and at least four upper-case hexadecimal digits whose value is the code point. */
  lemma CodePointLabelValue(c: char)
    ensures var name := CodePointLabel(c);
            |name| >= 6 && name[..2] == "U+"
            && AllDigits(name[2..], 16) && Value(name[2..], 16) == c as int
  {
    var d := PadStart(ToDigits(c as int, 16), 4, '0');
    assert CodePointLabel(c)[2..] == d;
    PaddedValue(c as int, 16, 4);
  }

  /** Different characters get different labels. */
  lemma CodePointLabelInjective(c: char, d: char)
    requires CodePointLabel(c) == CodePointLabel(d)
    ensures c == d
  {
    CodePointLabelValue(c);
    CodePointLabelValue(d);
  }

  /** The dictionary `get_char_info` builds, without the character's name. */
  datatype CharInfo = CharInfo(
    ch: char,
    codePoint: string,
    category: string,
    isEmoji: bool,
    isBroken: bool)

  function GetCharInfo(c: char, category: char -> string): CharInfo {
    CharInfo(c, CodePointLabel(c), category(c), IsEmoji(c), IsBroken(c, category))
  }

  // ----- Shapes -----------------------------------------------------------

  /**
   * A shape as `extract_text_from_shape` sees it: its `text` attribute, if
   * it has one, and its text frame, if it has one, as the runs' texts
   * paragraph by paragraph.
   */
  datatype Shape = Shape(text: Option<string>, textFrame: Option<seq<seq<string>>>)

  function Flatten(paragraphs: seq<seq<string>>): seq<string>
    decreases |paragraphs|
  {
    if paragraphs == [] then []
    else Flatten(paragraphs[..|paragraphs| - 1]) + paragraphs[|paragraphs| - 1]
  }

  /** The strings `extract_text_from_shape` collects: the text, then every run. */
  function ShapeParts(shape: Shape): seq<string> {
    (if shape.text.Some? then [shape.text.value] else [])
    + (if shape.textFrame.Some? then Flatten(shape.textFrame.value) else [])
  }

  function ShapeText(shape: Shape): string {
    Join(ShapeParts(shape), "\n")
  }

  /** `extract_text_from_shape`: appends the parts one by one, then joins them with newlines. */
  method ExtractTextFromShape(shape: Shape) returns (text: string)
    ensures text == ShapeText(shape)
  {
    var textParts: seq<string> := [];
    if shape.text.Some? {
      textParts := textParts + [shape.text.value];
    }
    ghost var head := textParts;
    if shape.textFrame.Some? {
      var paragraphs := shape.textFrame.value;
      for p := 0 to |paragraphs|
        invariant textParts == head + Flatten(paragraphs[..p])
      {
        FlattenStep(paragraphs, p);
        var runs := paragraphs[p];
        for r := 0 to |runs|
          invariant textParts == head + Flatten(paragraphs[..p]) + runs[..r]
        {
          assert runs[..r + 1] == runs[..r] + [runs[r]];
          textParts := textParts + [runs[r]];
        }
        assert runs[..|runs|] == runs;
      }
      assert paragraphs[..|paragraphs|] == paragraphs;
    }
    text := Join(textParts, "\n");
  }

  lemma FlattenStep(paragraphs: seq<seq<string>>, p: nat)
    requires p < |paragraphs|
    ensures Flatten(paragraphs[..p + 1]) == Flatten(paragraphs[..p]) + paragraphs[p]
  {
    assert paragraphs[..p + 1][..p] == paragraphs[..p];
  }

  /** Splitting the text of a shape whose parts hold no newline gives the parts back, in order. */
  lemma ShapeTextSplits(shape: Shape)
    requires ShapeParts(shape) != []
    requires forall i :: 0 <= i < |ShapeParts(shape)| ==> '\n' !in ShapeParts(shape)[i]
    ensures Split(ShapeText(shape), "\n") == ShapeParts(shape)
  {
    SplitJoin(ShapeParts(shape), '\n');
  }

  // ----- Classification of one character ----------------------------------

  datatype Bucket = BrokenChar | EmojiChar | OtherSpecial | NotRecorded

  /** Where one character of the text goes. */
  function Verdict(c: char, category: char -> string): Bucket {
    if (c as int) < 128 || IsPySpace(c) then NotRecorded
    else if IsBroken(c, category) then BrokenChar
    else if IsEmoji(c) then EmojiChar
    else if (c as int) > 0x2000 then OtherSpecial
    else NotRecorded
  }

  /**
   * ASCII and whitespace are never recorded; brokenness wins over being an
   * emoji; the third bucket takes only characters beyond U+2000 that are
   * neither.
   */
  lemma VerdictRules(c: char, category: char -> string)
    ensures (c as int) < 128 || IsPySpace(c) ==> Verdict(c, category) == NotRecorded
    ensures Verdict(c, category) == BrokenChar <==>
              (c as int) >= 128 && !IsPySpace(c) && IsBroken(c, category)
    ensures Verdict(c, category) == EmojiChar <==>
              (c as int) >= 128 && !IsPySpace(c) && !IsBroken(c, category) && IsEmoji(c)
    ensures Verdict(c, category) == OtherSpecial <==>
              !IsPySpace(c) && !IsBroken(c, category) && !IsEmoji(c) && (c as int) > 0x2000
  {
  }

  /** No whitespace character is ASCII-free: the `< 128` and `isspace` tests both matter. */
  lemma NonAsciiSpaceNotRecorded(category: char -> string)
    ensures Verdict('\U{3000}', category) == NotRecorded
    ensures Verdict('\U{A0}', category) == NotRecorded
  {
  }

  // ----- One slide --------------------------------------------------------

  /** The three lists of one slide before de-duplication. */
  datatype Collected = Collected(broken: seq<CharInfo>, emoji: seq<CharInfo>, other: seq<CharInfo>)

  function Record(col: Collected, c: char, category: char -> string): Collected {
    var info := GetCharInfo(c, category);
    match Verdict(c, category)
    case BrokenChar => col.(broken := col.broken + [info])
    case EmojiChar => col.(emoji := col.emoji + [info])
    case OtherSpecial => col.(other := col.other + [info])
    case NotRecorded => col
  }

  /** The lists after scanning `chars` from the start. */
  function Collect(chars: string, category: char -> string): Collected
    decreases |chars|
  {
    if chars == [] then Collected([], [], [])
    else Record(Collect(chars[..|chars| - 1], category), chars[|chars| - 1], category)
  }

  /** All characters of a slide, shape after shape. */
  function SlideChars(shapes: seq<Shape>): string
    decreases |shapes|
  {
    if shapes == [] then [] else SlideChars(shapes[..|shapes| - 1]) + ShapeText(shapes[|shapes| - 1])
  }

  lemma CollectSnoc(chars: string, c: char, category: char -> string)
    ensures Collect(chars + [c], category) == Record(Collect(chars, category), c, category)
  {
    assert (chars + [c])[..|chars|] == chars;
  }

  lemma CollectPrefixStep(before: string, text: string, k: nat, category: char -> string)
    requires k < |text|
    ensures Collect(before + text[..k + 1], category) ==
              Record(Collect(before + text[..k], category), text[k], category)
  {
    assert before + text[..k + 1] == (before + text[..k]) + [text[k]];
    CollectSnoc(before + text[..k], text[k], category);
  }

  /** Each record of `xs` is the record of its character, and that character's verdict is `b`. */
  predicate InBucket(xs: seq<CharInfo>, b: Bucket, category: char -> string) {
    forall i :: 0 <= i < |xs| ==>
      xs[i] == GetCharInfo(xs[i].ch, category) && Verdict(xs[i].ch, category) == b
  }

  lemma InBucketSnoc(xs: seq<CharInfo>, c: char, b: Bucket, category: char -> string)
    requires InBucket(xs, b, category) && Verdict(c, category) == b
    ensures InBucket(xs + [GetCharInfo(c, category)], b, category)
  {
    var info := GetCharInfo(c, category);
    var ys := xs + [info];
    assert info.ch == c;
    forall i | 0 <= i < |ys|
      ensures ys[i] == GetCharInfo(ys[i].ch, category) && Verdict(ys[i].ch, category) == b
    {
      if i < |xs| {
        assert ys[i] == xs[i];
      } else {
        assert ys[i] == info;
      }
    }
  }

  /** Every recorded character is in the bucket its verdict names, with its own record. */
  lemma {:induction false} CollectSorted(chars: string, category: char -> string)
    ensures var col := Collect(chars, category);
            InBucket(col.broken, BrokenChar, category) && InBucket(col.emoji, EmojiChar, category)
            && InBucket(col.other, OtherSpecial, category)
    decreases |chars|
  {
    if chars != [] {
      var p := chars[..|chars| - 1];
      var c := chars[|chars| - 1];
      CollectSorted(p, category);
      var col := Collect(p, category);
      match Verdict(c, category)
      case BrokenChar => InBucketSnoc(col.broken, c, BrokenChar, category);
      case EmojiChar => InBucketSnoc(col.emoji, c, EmojiChar, category);
      case OtherSpecial => InBucketSnoc(col.other, c, OtherSpecial, category);
      case NotRecorded =>
    }
  }

  /** Each character is recorded at most once: the buckets' lengths add up to the recorded occurrences. */
  function RecordedCount(chars: string, category: char -> string): nat
    decreases |chars|
  {
    if chars == [] then 0
    else RecordedCount(chars[..|chars| - 1], category)
         + (if Verdict(chars[|chars| - 1], category) != NotRecorded then 1 else 0)
  }

  lemma {:induction false} CollectCounts(chars: string, category: char -> string)
    ensures var col := Collect(chars, category);
            |col.broken| + |col.emoji| + |col.other| == RecordedCount(chars, category)
    decreases |chars|
  {
    if chars != [] {
      CollectCounts(chars[..|chars| - 1], category);
    }
  }

  // ----- De-duplication ---------------------------------------------------

  predicate HasKey(xs: seq<CharInfo>, k: string) {
    exists i :: 0 <= i < |xs| && xs[i].codePoint == k
  }

  function IndexOfKey(d: seq<CharInfo>, k: string): (r: Option<nat>)
    ensures r.Some? ==> r.value < |d| && d[r.value].codePoint == k
    ensures r.None? ==> !HasKey(d, k)
    decreases |d|
  {
    if d == [] then None
    else if d[|d| - 1].codePoint == k then Some(|d| - 1)
    else IndexOfKey(d[..|d| - 1], k)
  }

  /**
   * One step of `{c['code_point']: c for c in xs}`: a key already present
   * keeps its place and takes the new value; a new key goes at the end.
   */
  function Upsert(d: seq<CharInfo>, x: CharInfo): seq<CharInfo> {
    match IndexOfKey(d, x.codePoint)
    case Some(i) => d[i := x]
    case None => d + [x]
  }

  /** `list({c['code_point']: c for c in xs}.values())`. */
  function Dedup(xs: seq<CharInfo>): seq<CharInfo>
    decreases |xs|
  {
    if xs == [] then [] else Upsert(Dedup(xs[..|xs| - 1]), xs[|xs| - 1])
  }

  predicate DistinctKeys(d: seq<CharInfo>) {
    forall i, j :: 0 <= i < j < |d| ==> d[i].codePoint != d[j].codePoint
  }

  lemma HasKeySnoc(xs: seq<CharInfo>, x: CharInfo, k: string)
    ensures HasKey(xs + [x], k) <==> HasKey(xs, k) || k == x.codePoint
  {
    if HasKey(xs, k) {
      var i :| 0 <= i < |xs| && xs[i].codePoint == k;
      assert (xs + [x])[i] == xs[i];
    }
    if HasKey(xs + [x], k) && k != x.codePoint {
      var i :| 0 <= i < |xs| + 1 && (xs + [x])[i].codePoint == k;
      assert xs[i].codePoint == k;
    }
    if k == x.codePoint {
      assert (xs + [x])[|xs|] == x;
    }
  }

  /** One dictionary step keeps the keys distinct, adds the new key and only that one. */
  lemma UpsertKeys(d: seq<CharInfo>, x: CharInfo, k: string)
    requires DistinctKeys(d)
    ensures DistinctKeys(Upsert(d, x))
    ensures HasKey(Upsert(d, x), k) <==> HasKey(d, k) || k == x.codePoint
    ensures |Upsert(d, x)| <= |d| + 1
    ensures forall y :: y in Upsert(d, x) ==> y in d || y == x
  {
    match IndexOfKey(d, x.codePoint)
    case Some(i) =>
      var u := d[i := x];
      if HasKey(d, k) {
        var j :| 0 <= j < |d| && d[j].codePoint == k;
        assert u[j].codePoint == k;
      }
      if HasKey(u, k) {
        var j :| 0 <= j < |u| && u[j].codePoint == k;
        assert d[j].codePoint == k;
      }
      assert u[i] == x;
    case None =>
      HasKeySnoc(d, x, k);
  }

  /** After de-duplication no code point occurs twice, and exactly the input's code points occur. */
  lemma {:induction false} DedupKeys(xs: seq<CharInfo>)
    ensures DistinctKeys(Dedup(xs))
    ensures forall k :: HasKey(Dedup(xs), k) <==> HasKey(xs, k)
    ensures |Dedup(xs)| <= |xs|
    decreases |xs|
  {
    if xs != [] {
      var p := xs[..|xs| - 1];
      var x := xs[|xs| - 1];
      DedupKeys(p);
      assert xs == p + [x];
      forall k ensures HasKey(Dedup(xs), k) <==> HasKey(xs, k) {
        UpsertKeys(Dedup(p), x, k);
        HasKeySnoc(p, x, k);
      }
      UpsertKeys(Dedup(p), x, x.codePoint);
    }
  }

  /** Every kept record is one of the input's. */
  lemma {:induction false} DedupFromInput(xs: seq<CharInfo>)
    ensures forall y :: y in Dedup(xs) ==> y in xs
    decreases |xs|
  {
    if xs != [] {
      var p := xs[..|xs| - 1];
      DedupFromInput(p);
      DedupKeys(p);
      UpsertKeys(Dedup(p), xs[|xs| - 1], xs[|xs| - 1].codePoint);
      assert xs == p + [xs[|xs| - 1]];
    }
  }

  /** The records whose code point did not occur earlier, in order. */
  function FirstOccurrences(xs: seq<CharInfo>): seq<CharInfo>
    decreases |xs|
  {
    if xs == [] then []
    else
      var p := xs[..|xs| - 1];
      FirstOccurrences(p) + (if HasKey(p, xs[|xs| - 1].codePoint) then [] else [xs[|xs| - 1]])
  }

  /** Records with the same code point are the same record. */
  predicate KeyFunctional(xs: seq<CharInfo>) {
    forall i, j :: 0 <= i < |xs| && 0 <= j < |xs| && xs[i].codePoint == xs[j].codePoint ==> xs[i] == xs[j]
  }

  /**
   * When equal code points carry equal records, de-duplication keeps the
   * first occurrence of each code point, in input order: a subsequence of
   * the input.
   */
  lemma {:induction false} DedupFirstOccurrences(xs: seq<CharInfo>)
    requires KeyFunctional(xs)
    ensures Dedup(xs) == FirstOccurrences(xs)
    decreases |xs|
  {
    if xs != [] {
      var p := xs[..|xs| - 1];
      var x := xs[|xs| - 1];
      assert KeyFunctional(p);
      DedupFirstOccurrences(p);
      DedupKeys(p);
      DedupFromInput(p);
      var d := Dedup(p);
      match IndexOfKey(d, x.codePoint)
      case Some(i) =>
        assert d[i] in p;
        assert d[i] == x;
        assert d[i := x] == d;
      case None =>
    }
  }

  lemma InBucketKeyFunctional(xs: seq<CharInfo>, b: Bucket, category: char -> string)
    requires InBucket(xs, b, category)
    ensures KeyFunctional(xs)
  {
    forall i, j | 0 <= i < |xs| && 0 <= j < |xs| && xs[i].codePoint == xs[j].codePoint
      ensures xs[i] == xs[j]
    {
      CodePointLabelInjective(xs[i].ch, xs[j].ch);
    }
  }

  /** The records of one character scan are key-functional, because labels are injective. */
  lemma CollectedKeyFunctional(chars: string, category: char -> string)
    ensures var col := Collect(chars, category);
            KeyFunctional(col.broken) && KeyFunctional(col.emoji) && KeyFunctional(col.other)
  {
    CollectSorted(chars, category);
    var col := Collect(chars, category);
    InBucketKeyFunctional(col.broken, BrokenChar, category);
    InBucketKeyFunctional(col.emoji, EmojiChar, category);
    InBucketKeyFunctional(col.other, OtherSpecial, category);
  }

  /** De-duplication empties no list. */
  lemma DedupNonEmpty(xs: seq<CharInfo>)
    ensures Dedup(xs) == [] <==> xs == []
  {
    if xs != [] {
      DedupKeys(xs);
      assert HasKey(xs, xs[0].codePoint);
    }
  }

  // ----- The presentation -------------------------------------------------

  /** The record `analyze_presentation` keeps for a slide. */
  datatype SlideFindings = SlideFindings(
    slideNum: nat,
    emoji: seq<CharInfo>,
    broken: seq<CharInfo>,
    other: seq<CharInfo>)

  function SlideFindingsOf(num: nat, shapes: seq<Shape>, category: char -> string): SlideFindings {
    var col := Collect(SlideChars(shapes), category);
    SlideFindings(num, Dedup(col.emoji), Dedup(col.broken), Dedup(col.other))
  }

  predicate HasIssues(f: SlideFindings) {
    f.emoji != [] || f.broken != [] || f.other != []
  }

  /** The findings of the slides, numbered from 1, keeping those with an issue. */
  function FindingsOf(slides: seq<seq<Shape>>, category: char -> string): seq<SlideFindings>
    decreases |slides|
  {
    if slides == [] then []
    else
      var f := SlideFindingsOf(|slides|, slides[|slides| - 1], category);
      FindingsOf(slides[..|slides| - 1], category) + (if HasIssues(f) then [f] else [])
  }

  function BrokenCount(slides: seq<seq<Shape>>, category: char -> string): nat
    decreases |slides|
  {
    if slides == [] then 0
    else BrokenCount(slides[..|slides| - 1], category)
         + |Collect(SlideChars(slides[|slides| - 1]), category).broken|
  }

  function EmojiCount(slides: seq<seq<Shape>>, category: char -> string): nat
    decreases |slides|
  {
    if slides == [] then 0
    else EmojiCount(slides[..|slides| - 1], category)
         + |Collect(SlideChars(slides[|slides| - 1]), category).emoji|
  }

  /** Every finding has an issue and a number in 1..m, and the numbers strictly increase. */
  predicate Numbered(fs: seq<SlideFindings>, m: nat) {
    (forall i :: 0 <= i < |fs| ==> 1 <= fs[i].slideNum <= m && HasIssues(fs[i]))
    && (forall i, j :: 0 <= i < j < |fs| ==> fs[i].slideNum < fs[j].slideNum)
  }

  lemma NumberedAppend(fs: seq<SlideFindings>, m: nat, f: SlideFindings)
    requires Numbered(fs, m) && f.slideNum == m + 1 && HasIssues(f)
    ensures Numbered(fs + [f], m + 1)
  {
  }

  lemma NumberedWeaken(fs: seq<SlideFindings>, m: nat)
    requires Numbered(fs, m)
    ensures Numbered(fs, m + 1)
  {
  }

  /** Slide numbers lie in 1..|slides| and strictly increase through the findings. */
  lemma {:induction false} FindingsNumbered(slides: seq<seq<Shape>>, category: char -> string)
    ensures Numbered(FindingsOf(slides, category), |slides|)
    decreases |slides|
  {
    if slides != [] {
      var p := slides[..|slides| - 1];
      FindingsNumbered(p, category);
      var f := SlideFindingsOf(|slides|, slides[|slides| - 1], category);
      if HasIssues(f) {
        NumberedAppend(FindingsOf(p, category), |p|, f);
      } else {
        NumberedWeaken(FindingsOf(p, category), |p|);
        assert FindingsOf(slides, category) == FindingsOf(p, category) + [];
      }
    }
  }

  /** A slide has issues exactly when one of its characters was recorded. */
  lemma HasIssuesRecorded(num: nat, shapes: seq<Shape>, category: char -> string)
    ensures HasIssues(SlideFindingsOf(num, shapes, category)) <==>
              RecordedCount(SlideChars(shapes), category) > 0
  {
    var col := Collect(SlideChars(shapes), category);
    CollectCounts(SlideChars(shapes), category);
    DedupNonEmpty(col.emoji);
    DedupNonEmpty(col.broken);
    DedupNonEmpty(col.other);
  }

  predicate HasFindingFor(fs: seq<SlideFindings>, n: nat) {
    exists g :: g in fs && g.slideNum == n
  }

  lemma HasFindingForAppend(fs: seq<SlideFindings>, extra: seq<SlideFindings>, n: nat)
    ensures HasFindingFor(fs + extra, n) <==> HasFindingFor(fs, n) || HasFindingFor(extra, n)
  {
    if HasFindingFor(fs + extra, n) {
      var g :| g in fs + extra && g.slideNum == n;
    }
    if HasFindingFor(fs, n) {
      var g :| g in fs && g.slideNum == n;
      assert g in fs + extra;
    }
    if HasFindingFor(extra, n) {
      var g :| g in extra && g.slideNum == n;
      assert g in fs + extra;
    }
  }

  /** Findings numbered up to `m` hold none for a later slide. */
  lemma NumberedNoLater(fs: seq<SlideFindings>, m: nat, n: nat)
    requires Numbered(fs, m) && n > m
    ensures !HasFindingFor(fs, n)
  {
    forall g | g in fs
      ensures g.slideNum != n
    {
      var i :| 0 <= i < |fs| && fs[i] == g;
    }
  }

  /** The findings of a deck are those of all but its last slide, then the last slide's if it has issues. */
  lemma FindingsOfLast(slides: seq<seq<Shape>>, category: char -> string, n: nat)
    requires slides != []
    ensures var f := SlideFindingsOf(|slides|, slides[|slides| - 1], category);
            HasFindingFor(FindingsOf(slides, category), n) <==>
              HasFindingFor(FindingsOf(slides[..|slides| - 1], category), n) || (HasIssues(f) && n == |slides|)
  {
    var f := SlideFindingsOf(|slides|, slides[|slides| - 1], category);
    var extra := if HasIssues(f) then [f] else [];
    assert FindingsOf(slides, category) == FindingsOf(slides[..|slides| - 1], category) + extra;
    HasFindingForAppend(FindingsOf(slides[..|slides| - 1], category), extra, n);
    HasFindingForOptional(f, HasIssues(f), n);
  }

  lemma HasFindingForOptional(f: SlideFindings, keep: bool, n: nat)
    ensures HasFindingFor(if keep then [f] else [], n) <==> keep && f.slideNum == n
  {
    if keep && f.slideNum == n {
      assert f in [f];
    }
  }

  /** Slide `n` has a finding exactly when its findings are not all empty. */
  lemma {:induction false} FindingsOfSlide(slides: seq<seq<Shape>>, category: char -> string, n: nat)
    ensures HasFindingFor(FindingsOf(slides, category), n) <==>
              1 <= n <= |slides| && HasIssues(SlideFindingsOf(n, slides[n - 1], category))
    decreases |slides|
  {
    if slides != [] {
      var p := slides[..|slides| - 1];
      FindingsOfSlide(p, category, n);
      FindingsOfLast(slides, category, n);
      if 1 <= n <= |p| {
        assert slides[n - 1] == p[n - 1];
      } else if n == |slides| {
        FindingsNumbered(p, category);
        NumberedNoLater(FindingsOf(p, category), |p|, n);
      }
    }
  }

  /** `g` is the finding slide `g.slideNum` of `slides` produces. */
  predicate IsOwnFinding(g: SlideFindings, slides: seq<seq<Shape>>, category: char -> string) {
    1 <= g.slideNum <= |slides| && g == SlideFindingsOf(g.slideNum, slides[g.slideNum - 1], category)
  }

  /** Every finding is the one its own slide produces, under that slide's number. */
  lemma {:induction false} FindingsAreOwn(slides: seq<seq<Shape>>, category: char -> string)
    ensures forall g :: g in FindingsOf(slides, category) ==> IsOwnFinding(g, slides, category)
    decreases |slides|
  {
    if slides != [] {
      var p := slides[..|slides| - 1];
      var f := SlideFindingsOf(|slides|, slides[|slides| - 1], category);
      FindingsAreOwn(p, category);
      OwnFindingsAppend(FindingsOf(p, category), slides, category, f, HasIssues(f));
    }
  }

  lemma OwnFindingsAppend(fs: seq<SlideFindings>, slides: seq<seq<Shape>>, category: char -> string,
                          f: SlideFindings, keep: bool)
    requires slides != []
    requires forall g :: g in fs ==> IsOwnFinding(g, slides[..|slides| - 1], category)
    requires f == SlideFindingsOf(|slides|, slides[|slides| - 1], category)
    ensures forall g :: g in fs + (if keep then [f] else []) ==> IsOwnFinding(g, slides, category)
  {
    forall g | g in fs + (if keep then [f] else [])
      ensures IsOwnFinding(g, slides, category)
    {
      if g in fs {
        OwnFindingExtends(g, slides, category);
      }
    }
  }

  lemma OwnFindingExtends(g: SlideFindings, slides: seq<seq<Shape>>, category: char -> string)
    requires slides != [] && IsOwnFinding(g, slides[..|slides| - 1], category)
    ensures IsOwnFinding(g, slides, category)
  {
    assert slides[g.slideNum - 1] == slides[..|slides| - 1][g.slideNum - 1];
  }

  /** Slide `n` has a finding exactly when something was recorded on it. */
  lemma FindingsExactly(slides: seq<seq<Shape>>, category: char -> string, n: nat)
    ensures HasFindingFor(FindingsOf(slides, category), n) <==>
              1 <= n <= |slides| && RecordedCount(SlideChars(slides[n - 1]), category) > 0
  {
    FindingsOfSlide(slides, category, n);
    if 1 <= n <= |slides| {
      HasIssuesRecorded(n, slides[n - 1], category);
    }
  }

  /** What `analyze_presentation` prints, as values. */
  datatype Report = Report(
    totalSlides: nat,
    findings: seq<SlideFindings>,
    totalEmojiCount: nat,
    totalBrokenCount: nat)

  /** The body of the character loop of `analyze_presentation`. */
  method RecordChar(ch: char, category: char -> string, col: Collected,
                    totalEmojiCount: nat, totalBrokenCount: nat)
    returns (next: Collected, emojiCount: nat, brokenCount: nat)
    ensures next == Record(col, ch, category)
    ensures emojiCount + |col.emoji| == totalEmojiCount + |next.emoji|
    ensures brokenCount + |col.broken| == totalBrokenCount + |next.broken|
  {
    next, emojiCount, brokenCount := col, totalEmojiCount, totalBrokenCount;
    if (ch as int) < 128 || IsPySpace(ch) {
      return;
    }
    var info := GetCharInfo(ch, category);
    if info.isBroken {
      next := next.(broken := next.broken + [info]);
      brokenCount := brokenCount + 1;
    } else if info.isEmoji {
      next := next.(emoji := next.emoji + [info]);
      emojiCount := emojiCount + 1;
    } else if (ch as int) > 0x2000 {
      next := next.(other := next.other + [info]);
    }
  }

  /**
   * The character loop of `analyze_presentation` over the text of one
   * shape, continuing from the lists `col` made of the characters `before`.
   */
  method ScanText(text: string, category: char -> string, ghost before: string, col: Collected,
                  totalEmojiCount: nat, totalBrokenCount: nat)
    returns (next: Collected, emojiCount: nat, brokenCount: nat)
    requires col == Collect(before, category)
    ensures next == Collect(before + text, category)
    ensures emojiCount + |col.emoji| == totalEmojiCount + |next.emoji|
    ensures brokenCount + |col.broken| == totalBrokenCount + |next.broken|
  {
    next, emojiCount, brokenCount := col, totalEmojiCount, totalBrokenCount;
    assert before + text[..0] == before;
    for k := 0 to |text|
      invariant next == Collect(before + text[..k], category)
      invariant emojiCount + |col.emoji| == totalEmojiCount + |next.emoji|
      invariant brokenCount + |col.broken| == totalBrokenCount + |next.broken|
    {
      CollectPrefixStep(before, text, k, category);
      next, emojiCount, brokenCount := RecordChar(text[k], category, next, emojiCount, brokenCount);
    }
    assert text[..|text|] == text;
  }

  /** The shape loop of `analyze_presentation` for one slide. */
  method ScanSlide(shapes: seq<Shape>, category: char -> string,
                   totalEmojiCount: nat, totalBrokenCount: nat)
    returns (col: Collected, emojiCount: nat, brokenCount: nat)
    ensures col == Collect(SlideChars(shapes), category)
    ensures emojiCount == totalEmojiCount + |col.emoji|
    ensures brokenCount == totalBrokenCount + |col.broken|
  {
    col, emojiCount, brokenCount := Collected([], [], []), totalEmojiCount, totalBrokenCount;
    for j := 0 to |shapes|
      invariant col == Collect(SlideChars(shapes[..j]), category)
      invariant emojiCount == totalEmojiCount + |col.emoji|
      invariant brokenCount == totalBrokenCount + |col.broken|
    {
      assert shapes[..j + 1][..j] == shapes[..j];
      var text := ExtractTextFromShape(shapes[j]);
      if text == [] {
        assert SlideChars(shapes[..j + 1]) == SlideChars(shapes[..j]) + text == SlideChars(shapes[..j]);
        continue;
      }
      col, emojiCount, brokenCount :=
        ScanText(text, category, SlideChars(shapes[..j]), col, emojiCount, brokenCount);
    }
    assert shapes[..|shapes|] == shapes;
  }

  /**
   * `analyze_presentation` on a deck given as its slides' shapes; `None`
   * stands for a file that could not be opened, after which nothing is
   * reported.
   */
  method AnalyzePresentation(deck: Option<seq<seq<Shape>>>, category: char -> string)
    returns (report: Option<Report>)
    ensures deck.None? ==> report.None?
    ensures deck.Some? ==> report == Some(Report(|deck.value|, FindingsOf(deck.value, category),
                                                 EmojiCount(deck.value, category),
                                                 BrokenCount(deck.value, category)))
  {
    if deck.None? {
      return None;
    }
    var slides := deck.value;
    var findings: seq<SlideFindings> := [];
    var totalEmojiCount, totalBrokenCount := 0, 0;
    for s := 0 to |slides|
      invariant findings == FindingsOf(slides[..s], category)
      invariant totalEmojiCount == EmojiCount(slides[..s], category)
      invariant totalBrokenCount == BrokenCount(slides[..s], category)
    {
      assert slides[..s + 1][..s] == slides[..s];
      var col;
      col, totalEmojiCount, totalBrokenCount :=
        ScanSlide(slides[s], category, totalEmojiCount, totalBrokenCount);
      var emoji, broken, other := Dedup(col.emoji), Dedup(col.broken), Dedup(col.other);
      if emoji != [] || broken != [] || other != [] {
        findings := findings + [SlideFindings(s + 1, emoji, broken, other)];
      }
    }
    assert slides[..|slides|] == slides;
    report := Some(Report(|slides|, findings, totalEmojiCount, totalBrokenCount));
  }
}

/**
 * extract_pptx_text.py: which members of a .pptx archive are slides, the
 * order they are read in, which text runs of a slide are kept and how the
 * kept text is cut into the paragraphs that are printed.
 */
module PptxText {
  import opened Wrappers
  import opened TextUtil
  import opened Numerals

  // ----- Choosing and ordering the slides ---------------------------------

  const SlidePrefix := "ppt/slides/slide"
  const SlideSuffix := ".xml"

  predicate IsSlideMember(name: string) {
    StartsWith(name, SlidePrefix) && EndsWith(name, SlideSuffix)
  }

  /** The comprehension of line 13: the slide members, in archive order. */
  function SlideMembers(names: seq<string>): (r: seq<string>)
    ensures forall x :: x in r <==> x in names && IsSlideMember(x)
    ensures multiset(r) <= multiset(names)
    decreases |names|
  {
    if names == [] then []
    else
      var p := names[..|names| - 1];
      var x := names[|names| - 1];
      assert names == p + [x];
      SlideMembers(p) + (if IsSlideMember(x) then [x] else [])
  }

  /** Every occurrence of a slide member is kept, and nothing else. */
  lemma {:induction false} SlideMembersCount(names: seq<string>, x: string)
    ensures multiset(SlideMembers(names))[x] == if IsSlideMember(x) then multiset(names)[x] else 0
    decreases |names|
  {
    if names != [] {
      var p := names[..|names| - 1];
      SlideMembersCount(p, x);
      MultisetSnoc(names);
    }
  }

  lemma MultisetSnoc(names: seq<string>)
    requires names != []
    ensures multiset(names) == multiset(names[..|names| - 1]) + multiset{names[|names| - 1]}
  {
    assert names == names[..|names| - 1] + [names[|names| - 1]];
  }

  /** `\d`, restricted to the ASCII digits. */
  predicate IsAsciiDigit(c: char) {
    '0' <= c <= '9'
  }

  /** The end of the run of digits that starts at `i`. */
  function DigitsEnd(s: string, i: nat): (j: nat)
    requires i <= |s|
    ensures i <= j <= |s|
    ensures forall k :: i <= k < j ==> IsAsciiDigit(s[k])
    ensures j < |s| ==> !IsAsciiDigit(s[j])
    decreases |s| - i
  {
    if i < |s| && IsAsciiDigit(s[i]) then DigitsEnd(s, i + 1) else i
  }

  /** Where `slide(\d+)` matches at `i`. */
  predicate SlideAt(s: string, i: nat) {
    OccursAt(s, "slide", i) && i + 5 < |s| && IsAsciiDigit(s[i + 5])
  }

  /** The first index from `from` on where `slide(\d+)` matches. */
  function FindSlideMatch(s: string, from: nat): (r: Option<nat>)
    ensures r.Some? ==> from <= r.value && SlideAt(s, r.value)
    ensures r.Some? ==> forall i :: from <= i < r.value ==> !SlideAt(s, i)
    ensures r.None? ==> forall i :: from <= i ==> !SlideAt(s, i)
    decreases |s| - from
  {
    if from + 6 > |s| then None
    else if SlideAt(s, from) then Some(from)
    else FindSlideMatch(s, from + 1)
  }

  /** `re.search(r'slide(\d+)', name).group(1)`, or `None` where the search finds nothing. */
  function SlideNumber(name: string): Option<string> {
    match FindSlideMatch(name, 0)
    case None => None
    case Some(i) => Some(name[i + 5..DigitsEnd(name, i + 5)])
  }

  /** The search fails exactly when no `slide` is followed by a digit; what it captures is digits. */
  lemma SlideNumberDigits(name: string)
    ensures SlideNumber(name).Some? ==>
              var n := SlideNumber(name).value;
              |n| >= 1 && forall k :: 0 <= k < |n| ==> IsAsciiDigit(n[k])
    ensures SlideNumber(name).None? <==> forall i :: 0 <= i ==> !SlideAt(name, i)
  {
    match FindSlideMatch(name, 0)
    case None =>
    case Some(i) =>
      assert SlideAt(name, i);
  }

  /**
   * The captured number sits right after the leftmost `slide` that a digit
   * follows, and no digit follows it.
   */
  lemma SlideNumberPlace(name: string)
    requires SlideNumber(name).Some?
    ensures exists i: nat :: SlideAt(name, i) && (forall m: nat :: 0 <= m < i ==> !SlideAt(name, m))
              && var n := SlideNumber(name).value;
                 i + 5 + |n| <= |name| && name[i + 5..i + 5 + |n|] == n
                 && (i + 5 + |n| < |name| ==> !IsAsciiDigit(name[i + 5 + |n|]))
  {
    var i := FindSlideMatch(name, 0).value;
    var n := SlideNumber(name).value;
    assert n == name[i + 5..DigitsEnd(name, i + 5)];
    assert i + 5 + |n| == DigitsEnd(name, i + 5);
    assert SlideAt(name, i) && (forall m: nat :: 0 <= m < i ==> !SlideAt(name, m));
  }

  lemma AsciiDigitsAreDigits(s: string)
    requires forall k :: 0 <= k < |s| ==> IsAsciiDigit(s[k])
    ensures AllDigits(s, 10)
  {
    forall k | 0 <= k < |s| ensures IsDigitOf(s[k], 10) {
      var d := s[k] as int - '0' as int;
      assert Digits[d] == s[k];
    }
  }

  /** The captured number is a non-empty decimal numeral, so `int(...)` reads it without error. */
  lemma SlideNumberIsDecimal(name: string)
    requires SlideNumber(name).Some?
    ensures |SlideNumber(name).value| >= 1 && AllDigits(SlideNumber(name).value, 10)
  {
    SlideNumberDigits(name);
    AsciiDigitsAreDigits(SlideNumber(name).value);
  }

  /** A selected slide: its member name, the digits of its number and their value. */
  datatype SlideRef = SlideRef(name: string, number: string, key: nat)

  /** The first member in which the search for `slide(\d+)` finds nothing. */
  function FirstUnnumbered(members: seq<string>): (r: Option<string>)
    ensures r.None? <==> forall i :: 0 <= i < |members| ==> SlideNumber(members[i]).Some?
    ensures r.Some? ==> exists i :: 0 <= i < |members| && members[i] == r.value
                          && SlideNumber(members[i]).None?
                          && forall j :: 0 <= j < i ==> SlideNumber(members[j]).Some?
    decreases |members|
  {
    if members == [] then None
    else if SlideNumber(members[0]).None? then Some(members[0])
    else
      var r := FirstUnnumbered(members[1..]);
      assert forall i :: 0 < i < |members| ==> members[i] == members[1..][i - 1];
      r
  }

  function RefOf(member: string): SlideRef
    requires SlideNumber(member).Some?
  {
    var n := SlideNumber(member).value;
    SlideRef(member, n, Value(n, 10))
  }

  /**
   * The sort key `int(...)` and the printed number of each member; the key
   * function raises on the first member without a number, and that member
   * is the error.
   */
  function SlideRefs(members: seq<string>): (r: Result<seq<SlideRef>, string>)
    ensures r.Failure? <==> exists i :: 0 <= i < |members| && SlideNumber(members[i]).None?
    ensures r.Failure? ==> FirstUnnumbered(members) == Some(r.error)
    ensures r.Success? ==>
              |r.value| == |members|
              && forall i :: 0 <= i < |members| ==>
                   r.value[i].name == members[i] && SlideNumber(members[i]) == Some(r.value[i].number)
                   && r.value[i].key == Value(r.value[i].number, 10)
  {
    match FirstUnnumbered(members)
    case Some(m) => Failure(m)
    case None => Success(seq(|members|, i requires 0 <= i < |members| => RefOf(members[i])))
  }

  /** Inserts after every element whose key is not larger, as a stable sort does. */
  function Insert(s: seq<SlideRef>, x: SlideRef): seq<SlideRef>
    decreases |s|
  {
    if s == [] then [x]
    else if x.key < s[0].key then [x] + s
    else [s[0]] + Insert(s[1..], x)
  }

  lemma {:induction false} InsertPerm(s: seq<SlideRef>, x: SlideRef)
    ensures multiset(Insert(s, x)) == multiset(s) + multiset{x}
    decreases |s|
  {
    if s != [] && x.key >= s[0].key {
      InsertPerm(s[1..], x);
      assert s == [s[0]] + s[1..];
    }
  }

  /** Every key of the result is at least `b` when every key of `s` and that of `x` are. */
  lemma {:induction false} InsertBound(s: seq<SlideRef>, x: SlideRef, b: nat)
    requires b <= x.key && forall i :: 0 <= i < |s| ==> b <= s[i].key
    ensures forall i :: 0 <= i < |Insert(s, x)| ==> b <= Insert(s, x)[i].key
    decreases |s|
  {
    if s != [] && x.key >= s[0].key {
      InsertBound(s[1..], x, b);
    }
  }

  /** `list.sort(key=...)`: a stable sort by key. */
  function SortByKey(xs: seq<SlideRef>): seq<SlideRef>
    decreases |xs|
  {
    if xs == [] then [] else Insert(SortByKey(xs[..|xs| - 1]), xs[|xs| - 1])
  }

  /** The sort neither loses nor adds a slide. */
  lemma {:induction false} SortByKeyPerm(xs: seq<SlideRef>)
    ensures multiset(SortByKey(xs)) == multiset(xs)
    decreases |xs|
  {
    if xs != [] {
      var p := xs[..|xs| - 1];
      SortByKeyPerm(p);
      InsertPerm(SortByKey(p), xs[|xs| - 1]);
      assert xs == p + [xs[|xs| - 1]];
    }
  }

  predicate SortedByKey(s: seq<SlideRef>) {
    forall i, j :: 0 <= i < j < |s| ==> s[i].key <= s[j].key
  }

  lemma {:induction false} InsertSorted(s: seq<SlideRef>, x: SlideRef)
    requires SortedByKey(s)
    ensures SortedByKey(Insert(s, x))
    decreases |s|
  {
    if s != [] && x.key >= s[0].key {
      InsertSorted(s[1..], x);
      InsertBound(s[1..], x, s[0].key);
    }
  }

  /** The sorted slides are ordered by number, so `slide2` precedes `slide10`. */
  lemma {:induction false} SortByKeySorted(xs: seq<SlideRef>)
    ensures SortedByKey(SortByKey(xs))
    decreases |xs|
  {
    if xs != [] {
      SortByKeySorted(xs[..|xs| - 1]);
      InsertSorted(SortByKey(xs[..|xs| - 1]), xs[|xs| - 1]);
    }
  }

  /** The elements with key `k`, in order. */
  function WithKey(s: seq<SlideRef>, k: nat): seq<SlideRef>
    decreases |s|
  {
    if s == [] then [] else (if s[0].key == k then [s[0]] else []) + WithKey(s[1..], k)
  }

  lemma WithKeyCons(h: SlideRef, t: seq<SlideRef>, k: nat)
    ensures WithKey([h] + t, k) == (if h.key == k then [h] else []) + WithKey(t, k)
  {
    assert ([h] + t)[1..] == t;
  }

  lemma {:induction false} WithKeyAppend(a: seq<SlideRef>, b: seq<SlideRef>, k: nat)
    ensures WithKey(a + b, k) == WithKey(a, k) + WithKey(b, k)
    decreases |a|
  {
    if a == [] {
      assert a + b == b;
    } else {
      var h := if a[0].key == k then [a[0]] else [];
      calc {
        WithKey(a + b, k);
        { assert a + b == [a[0]] + (a[1..] + b); WithKeyCons(a[0], a[1..] + b, k); }
        h + WithKey(a[1..] + b, k);
        { WithKeyAppend(a[1..], b, k); }
        h + (WithKey(a[1..], k) + WithKey(b, k));
        (h + WithKey(a[1..], k)) + WithKey(b, k);
        WithKey(a, k) + WithKey(b, k);
      }
    }
  }

  lemma {:induction false} InsertWithKey(s: seq<SlideRef>, x: SlideRef, k: nat)
    requires SortedByKey(s)
    ensures WithKey(Insert(s, x), k) == WithKey(s, k) + (if x.key == k then [x] else [])
    decreases |s|
  {
    if s == [] {
    } else if x.key < s[0].key {
      InsertWithKeyFront(s, x, k);
    } else {
      assert SortedByKey(s[1..]);
      InsertWithKey(s[1..], x, k);
      WithKeyCons(s[0], Insert(s[1..], x), k);
    }
  }

  /** Inserted in front of larger keys, `x` is the only element with its own key. */
  lemma InsertWithKeyFront(s: seq<SlideRef>, x: SlideRef, k: nat)
    requires SortedByKey(s) && s != [] && x.key < s[0].key
    ensures WithKey(Insert(s, x), k) == WithKey(s, k) + (if x.key == k then [x] else [])
  {
    WithKeyCons(x, s, k);
    if x.key == k {
      forall i | 0 <= i < |s| ensures s[i].key != k { assert s[0].key <= s[i].key; }
      WithKeyNone(s, k);
    }
  }

  lemma {:induction false} WithKeyNone(s: seq<SlideRef>, k: nat)
    requires forall i :: 0 <= i < |s| ==> s[i].key != k
    ensures WithKey(s, k) == []
    decreases |s|
  {
    if s != [] {
      WithKeyNone(s[1..], k);
    }
  }

  /** Stability: members with the same number keep their archive order. */
  lemma {:induction false} SortByKeyStable(xs: seq<SlideRef>, k: nat)
    ensures WithKey(SortByKey(xs), k) == WithKey(xs, k)
    decreases |xs|
  {
    if xs != [] {
      var p := xs[..|xs| - 1];
      var x := xs[|xs| - 1];
      SortByKeyStable(p, k);
      SortByKeySorted(p);
      InsertWithKey(SortByKey(p), x, k);
      assert xs == p + [x];
      WithKeyAppend(p, [x], k);
    }
  }

  /**
   * Lines 13-14: the slide members sorted by number; a member whose name
   * holds no `slide` followed by a digit makes the script fail.
   */
  function SelectSlides(names: seq<string>): Result<seq<SlideRef>, string> {
    match SlideRefs(SlideMembers(names))
    case Failure(e) => Failure(e)
    case Success(refs) => Success(SortByKey(refs))
  }

  function Names(s: seq<SlideRef>): seq<string>
    decreases |s|
  {
    if s == [] then [] else [s[0].name] + Names(s[1..])
  }

  lemma NamesCons(h: SlideRef, t: seq<SlideRef>)
    ensures Names([h] + t) == [h.name] + Names(t)
  {
    assert ([h] + t)[1..] == t;
  }

  lemma {:induction false} NamesAppend(a: seq<SlideRef>, b: seq<SlideRef>)
    ensures Names(a + b) == Names(a) + Names(b)
    decreases |a|
  {
    if a == [] {
      assert a + b == b;
    } else {
      assert a + b == [a[0]] + (a[1..] + b);
      NamesAppend(a[1..], b);
      NamesCons(a[0], a[1..] + b);
    }
  }

  lemma {:induction false} InsertNames(s: seq<SlideRef>, x: SlideRef)
    ensures multiset(Names(Insert(s, x))) == multiset(Names(s)) + multiset{x.name}
    decreases |s|
  {
    if s != [] && x.key >= s[0].key {
      InsertNames(s[1..], x);
      NamesCons(s[0], Insert(s[1..], x));
    } else if s != [] {
      NamesCons(x, s);
    }
  }

  lemma NamesAppendOne(p: seq<SlideRef>, x: SlideRef)
    ensures Names(p + [x]) == Names(p) + [x.name]
  {
    NamesAppend(p, [x]);
    assert Names([x]) == [x.name] by { assert [x][1..] == []; }
  }

  lemma {:induction false} SortByKeyNames(xs: seq<SlideRef>)
    ensures multiset(Names(SortByKey(xs))) == multiset(Names(xs))
    decreases |xs|
  {
    if xs != [] {
      var p := xs[..|xs| - 1];
      var x := xs[|xs| - 1];
      calc {
        multiset(Names(SortByKey(xs)));
        multiset(Names(Insert(SortByKey(p), x)));
        { InsertNames(SortByKey(p), x); }
        multiset(Names(SortByKey(p))) + multiset{x.name};
        { SortByKeyNames(p); }
        multiset(Names(p)) + multiset{x.name};
        { NamesLast(xs); }
        multiset(Names(xs));
      }
    }
  }

  lemma NamesLast(xs: seq<SlideRef>)
    requires xs != []
    ensures multiset(Names(xs)) == multiset(Names(xs[..|xs| - 1])) + multiset{xs[|xs| - 1].name}
  {
    var p := xs[..|xs| - 1];
    var x := xs[|xs| - 1];
    assert xs == p + [x];
    NamesAppendOne(p, x);
  }

  lemma {:induction false} NamesAt(s: seq<SlideRef>)
    ensures |Names(s)| == |s| && forall i :: 0 <= i < |s| ==> Names(s)[i] == s[i].name
    decreases |s|
  {
    if s != [] {
      NamesAt(s[1..]);
    }
  }

  lemma SlideRefsNames(members: seq<string>)
    requires SlideRefs(members).Success?
    ensures Names(SlideRefs(members).value) == members
  {
    NamesAt(SlideRefs(members).value);
  }

  /** The selection is a permutation of the slide members, ordered by number. */
  lemma SelectSlidesOrder(names: seq<string>)
    requires SelectSlides(names).Success?
    ensures var sel := SelectSlides(names).value;
            SortedByKey(sel) && multiset(Names(sel)) == multiset(SlideMembers(names))
  {
    var refs := SlideRefs(SlideMembers(names)).value;
    SortByKeySorted(refs);
    SortByKeyNames(refs);
    SlideRefsNames(SlideMembers(names));
  }

  // ----- The text of one slide --------------------------------------------

  /** Lines 38-40: the texts of the `a:t` elements that are present and not blank. */
  function KeptRuns(runs: seq<Option<string>>): (texts: seq<string>)
    decreases |runs|
  {
    if runs == [] then []
    else
      var r := runs[|runs| - 1];
      KeptRuns(runs[..|runs| - 1]) + (if r.Some? && r.value != "" && PyStrip(r.value) != "" then [r.value] else [])
  }

  /** A run is kept exactly when it has text that is not all whitespace. */
  lemma {:induction false} KeptRunsExactly(runs: seq<Option<string>>)
    ensures forall t :: t in KeptRuns(runs) <==> Some(t) in runs && PyStrip(t) != ""
    ensures |KeptRuns(runs)| <= |runs|
    decreases |runs|
  {
    if runs != [] {
      var p := runs[..|runs| - 1];
      KeptRunsExactly(p);
      assert runs == p + [runs[|runs| - 1]];
      assert PyStrip("") == "";
    }
  }

  /** The filter keeps the runs in document order. */
  lemma {:induction false} KeptRunsAppend(a: seq<Option<string>>, b: seq<Option<string>>)
    ensures KeptRuns(a + b) == KeptRuns(a) + KeptRuns(b)
    decreases |b|
  {
    if b == [] {
      assert a + b == a;
    } else {
      var p := b[..|b| - 1];
      assert (a + b)[..|a + b| - 1] == a + p;
      assert (a + b)[|a + b| - 1] == b[|b| - 1];
      KeptRunsAppend(a, p);
    }
  }

  /** The first index from `i` on that holds no newline. */
  function SkipNewlines(s: string, i: nat): (j: nat)
    requires i <= |s|
    ensures i <= j <= |s| && (j < |s| ==> s[j] != '\n')
    ensures forall k :: i <= k < j ==> s[k] == '\n'
    decreases |s| - i
  {
    if i < |s| && s[i] == '\n' then SkipNewlines(s, i + 1) else i
  }

  /** The characters of `s` other than newlines. */
  function DropNewlines(s: string): string
    decreases |s|
  {
    if s == [] then [] else (if s[0] == '\n' then [] else [s[0]]) + DropNewlines(s[1..])
  }

  /**
   * `re.split(r'\n+', s)`: the pieces between maximal runs of newlines.
   * Only the first and the last piece can be empty (when `s` starts or
   * ends with a newline).
   */
  function SplitNewlineRuns(s: string): seq<string>
    decreases |s|
  {
    match FindFrom(s, "\n", 0)
    case None => [s]
    case Some(i) => [s[..i]] + SplitNewlineRuns(s[SkipNewlines(s, i + 1)..])
  }

  /** The text before the first newline holds none. */
  lemma HeadHasNoNewline(s: string, i: nat)
    requires FindFrom(s, "\n", 0) == Some(i)
    ensures '\n' !in s[..i]
  {
    forall k | 0 <= k < i ensures s[..i][k] != '\n' {
      assert s[k..k + 1] == [s[k]];
      assert !OccursAt(s, "\n", k);
    }
  }

  lemma NewlineFound(s: string, i: nat)
    requires FindFrom(s, "\n", 0) == Some(i)
    ensures i < |s| && s[i] == '\n'
  {
    assert s[i..i + 1] == "\n";
  }

  /** There is at least one piece, and no piece holds a newline. */
  lemma {:induction false} SplitRunsNoNewline(s: string)
    ensures |SplitNewlineRuns(s)| >= 1
    ensures forall i :: 0 <= i < |SplitNewlineRuns(s)| ==> '\n' !in SplitNewlineRuns(s)[i]
    decreases |s|
  {
    match FindFrom(s, "\n", 0)
    case None =>
      NoNewline(s);
    case Some(i) =>
      SplitRunsNoNewline(s[SkipNewlines(s, i + 1)..]);
      HeadHasNoNewline(s, i);
  }

  /** The pieces together hold exactly the characters of `s` other than newlines, in order. */
  lemma {:induction false} SplitRunsConcat(s: string)
    ensures Concat(SplitNewlineRuns(s)) == DropNewlines(s)
    decreases |s|
  {
    match FindFrom(s, "\n", 0)
    case None =>
      NoNewline(s);
      ConcatSingle(s);
    case Some(i) =>
      var j := SkipNewlines(s, i + 1);
      HeadHasNoNewline(s, i);
      NewlineFound(s, i);
      SplitRunsConcat(s[j..]);
      ConcatPieces(s, i, j, SplitNewlineRuns(s[j..]));
  }

  lemma ConcatSingle(s: string)
    requires '\n' !in s
    ensures Concat([s]) == DropNewlines(s)
  {
    DropNoNewline(s);
    assert Concat([s]) == s;
  }

  lemma ConcatPieces(s: string, i: nat, j: nat, rest: seq<string>)
    requires i < j <= |s| && '\n' !in s[..i] && forall k :: i <= k < j ==> s[k] == '\n'
    requires Concat(rest) == DropNewlines(s[j..])
    ensures Concat([s[..i]] + rest) == DropNewlines(s)
  {
    SplitStep(s, i, j);
    DropNoNewline(s[..i]);
    ConcatCons(s[..i], rest);
  }

  /**
   * Only the first and the last piece can be empty, the first only when
   * `s` is empty or starts with a newline.
   */
  lemma {:induction false} SplitRunsNonEmpty(s: string)
    ensures SplitNewlineRuns(s)[0] == [] ==> s == [] || s[0] == '\n'
    ensures forall i :: 0 < i < |SplitNewlineRuns(s)| - 1 ==> SplitNewlineRuns(s)[i] != []
    decreases |s|
  {
    match FindFrom(s, "\n", 0)
    case None =>
    case Some(i) =>
      var j := SkipNewlines(s, i + 1);
      SplitRunsNonEmpty(s[j..]);
      if i == 0 {
        assert s[0..1] == [s[0]];
      }
  }

  /** `s` with each maximal run of newlines collapsed to a single newline. */
  function Squeeze(s: string): string
    decreases |s|
  {
    if s == [] then []
    else if s[0] == '\n' then "\n" + Squeeze(s[SkipNewlines(s, 1)..])
    else [s[0]] + Squeeze(s[1..])
  }

  /** Squeezing text up to its first newline keeps that text and one newline. */
  lemma {:induction false} SqueezeAt(s: string, i: nat)
    requires i < |s| && s[i] == '\n' && '\n' !in s[..i]
    ensures Squeeze(s) == s[..i] + "\n" + Squeeze(s[SkipNewlines(s, i + 1)..])
    decreases i
  {
    var rest := Squeeze(s[SkipNewlines(s, i + 1)..]);
    if i == 0 {
      calc {
        Squeeze(s);
        "\n" + rest;
        { assert s[..i] == []; }
        s[..i] + "\n" + rest;
      }
    } else {
      var t := s[1..];
      var k := SkipNewlines(t, i);
      NoNewlineTail(s, i);
      assert t[k..] == s[SkipNewlines(s, i + 1)..] by { SkipNewlinesShift(s, i); TailSlice(s, k); }
      calc {
        Squeeze(s);
        { SqueezeCons(s); }
        [s[0]] + Squeeze(t);
        { SqueezeAt(t, i - 1); }
        [s[0]] + (t[..i - 1] + "\n" + Squeeze(t[k..]));
        [s[0]] + (t[..i - 1] + "\n" + rest);
        { PrefixCons(s, i, "\n", rest); }
        s[..i] + "\n" + rest;
      }
    }
  }

  lemma NoNewlineTail(s: string, i: nat)
    requires 0 < i < |s| && s[i] == '\n' && '\n' !in s[..i]
    ensures s[0] != '\n' && s[1..][i - 1] == '\n' && '\n' !in s[1..][..i - 1]
  {
    assert s[0] == s[..i][0];
    assert s[1..][..i - 1] == s[1..i];
    forall m | 0 <= m < i - 1 ensures s[1..i][m] != '\n' { assert s[1..i][m] == s[..i][m + 1]; }
  }

  lemma TailSlice(s: string, k: nat)
    requires 0 < |s| && k <= |s| - 1
    ensures s[1..][k..] == s[k + 1..]
  {
  }

  /** A line's first character, when it is not a newline, is kept by `Squeeze`. */
  lemma SqueezeCons(s: string)
    requires s != [] && s[0] != '\n'
    ensures Squeeze(s) == [s[0]] + Squeeze(s[1..])
  {
  }

  lemma PrefixCons(s: string, i: nat, u: string, w: string)
    requires 0 < i <= |s|
    ensures [s[0]] + (s[1..][..i - 1] + u + w) == s[..i] + u + w
  {
    assert s[..i] == [s[0]] + s[1..][..i - 1];
  }

  /** Skipping in `s[1..]` from `k` ends one place before skipping in `s` from `k + 1`. */
  lemma {:induction false} SkipNewlinesShift(s: string, k: nat)
    requires k < |s|
    ensures SkipNewlines(s[1..], k) + 1 == SkipNewlines(s, k + 1)
    decreases |s| - k
  {
    if k + 1 < |s| && s[k + 1] == '\n' {
      SkipNewlinesShift(s, k + 1);
    }
  }

  lemma {:induction false} SqueezeNoNewline(s: string)
    requires '\n' !in s
    ensures Squeeze(s) == s
    decreases |s|
  {
    if s != [] {
      assert '\n' !in s[1..];
      SqueezeNoNewline(s[1..]);
    }
  }

  /** The pieces joined with single newlines give `s` with its newline runs collapsed. */
  lemma {:induction false} SplitRunsJoin(s: string)
    ensures Join(SplitNewlineRuns(s), "\n") == Squeeze(s)
    decreases |s|
  {
    match FindFrom(s, "\n", 0)
    case None =>
      NoNewline(s);
      SqueezeNoNewline(s);
    case Some(i) =>
      var j := SkipNewlines(s, i + 1);
      HeadHasNoNewline(s, i);
      NewlineFound(s, i);
      SqueezeAt(s, i);
      SplitRunsJoin(s[j..]);
      SplitRunsNoNewline(s[j..]);
  }

  /**
   * The pieces are exactly what splitting the collapsed text at each
   * newline gives: text on either side of a run of newlines lands in
   * different pieces.
   */
  lemma SplitRunsIsSplitOfSqueeze(s: string)
    ensures SplitNewlineRuns(s) == Split(Squeeze(s), "\n")
  {
    SplitRunsNoNewline(s);
    SplitRunsJoin(s);
    SplitJoin(SplitNewlineRuns(s), '\n');
  }

  lemma NoNewline(s: string)
    requires FindFrom(s, "\n", 0) == None
    ensures '\n' !in s
  {
    forall k | 0 <= k < |s| ensures s[k] != '\n' {
      assert s[k..k + 1] == [s[k]];
      assert !OccursAt(s, "\n", k);
    }
  }

  lemma {:induction false} DropNoNewline(s: string)
    requires '\n' !in s
    ensures DropNewlines(s) == s
    decreases |s|
  {
    if s != [] {
      DropNoNewline(s[1..]);
      assert s == [s[0]] + s[1..];
    }
  }

  lemma {:induction false} DropAppend(a: string, b: string)
    ensures DropNewlines(a + b) == DropNewlines(a) + DropNewlines(b)
    decreases |a|
  {
    if a == [] {
      assert a + b == b;
    } else {
      assert (a + b)[1..] == a[1..] + b;
      DropAppend(a[1..], b);
    }
  }

  lemma {:induction false} DropRun(s: string, i: nat, j: nat)
    requires i <= j <= |s| && forall k :: i <= k < j ==> s[k] == '\n'
    ensures DropNewlines(s[i..]) == DropNewlines(s[j..])
    decreases j - i
  {
    if i < j {
      assert s[i..][1..] == s[i + 1..];
      DropRun(s, i + 1, j);
    }
  }

  /** The newlines from `i` to `j` drop out. */
  lemma SplitStep(s: string, i: nat, j: nat)
    requires i < j <= |s| && forall k :: i <= k < j ==> s[k] == '\n'
    ensures DropNewlines(s) == DropNewlines(s[..i]) + DropNewlines(s[j..])
  {
    assert s == s[..i] + s[i..];
    DropAppend(s[..i], s[i..]);
    DropRun(s, i, j);
  }

  lemma {:induction false} ConcatCons(h: string, rest: seq<string>)
    ensures Concat([h] + rest) == h + Concat(rest)
    decreases |rest|
  {
    if rest != [] {
      var p := rest[..|rest| - 1];
      ConcatCons(h, p);
      assert ([h] + rest)[..|rest|] == [h] + p;
    }
  }

  /** Lines 51-55: the stripped non-blank pieces. */
  function Paragraphs(pieces: seq<string>): (r: seq<string>)
    ensures forall i :: 0 <= i < |r| ==> r[i] != ""
    decreases |pieces|
  {
    if pieces == [] then []
    else
      var p := PyStrip(pieces[|pieces| - 1]);
      Paragraphs(pieces[..|pieces| - 1]) + (if p != "" then [p] else [])
  }

  const NoTextMarker := "[No text content]"

  /** What is printed for one slide, without the framing lines. */
  function SlideText(runs: seq<Option<string>>): seq<string> {
    var texts := KeptRuns(runs);
    if texts == [] then [NoTextMarker] else Paragraphs(SplitNewlineRuns(Concat(texts)))
  }

  /** The text of a slide with no kept run is exactly the marker. */
  lemma NoTextGivesMarker(runs: seq<Option<string>>)
    requires forall i :: 0 <= i < |runs| ==> runs[i].None? || PyStrip(runs[i].value) == ""
    ensures SlideText(runs) == [NoTextMarker]
  {
    KeptRunsNone(runs);
  }

  lemma {:induction false} KeptRunsNone(runs: seq<Option<string>>)
    requires forall i :: 0 <= i < |runs| ==> runs[i].None? || PyStrip(runs[i].value) == ""
    ensures KeptRuns(runs) == []
    decreases |runs|
  {
    if runs != [] {
      KeptRunsNone(runs[..|runs| - 1]);
    }
  }

  /** Lines 37-40: the loop that keeps the runs' texts. */
  method KeepRuns(runs: seq<Option<string>>) returns (texts: seq<string>)
    ensures texts == KeptRuns(runs)
  {
    texts := [];
    for i := 0 to |runs|
      invariant texts == KeptRuns(runs[..i])
    {
      assert runs[..i + 1][..i] == runs[..i];
      var t := runs[i];
      if t.Some? && t.value != "" && PyStrip(t.value) != "" {
        texts := texts + [t.value];
      }
    }
    assert runs[..|runs|] == runs;
  }

  /** Lines 51-55: the loop that keeps the stripped non-blank pieces. */
  method StripParagraphs(paragraphs: seq<string>) returns (lines: seq<string>)
    ensures lines == Paragraphs(paragraphs)
  {
    lines := [];
    for i := 0 to |paragraphs|
      invariant lines == Paragraphs(paragraphs[..i])
    {
      assert paragraphs[..i + 1][..i] == paragraphs[..i];
      var para := paragraphs[i];
      if PyStrip(para) != "" {
        lines := lines + [PyStrip(para)];
      }
    }
    assert paragraphs[..|paragraphs|] == paragraphs;
  }

  /** Lines 37-57 for one slide: the lines printed under its heading, without the blank ones. */
  method SlideLines(runs: seq<Option<string>>) returns (lines: seq<string>)
    ensures lines == SlideText(runs)
  {
    var texts := KeepRuns(runs);
    if texts != [] {
      var currentPara: seq<string> := [];
      for i := 0 to |texts|
        invariant currentPara == texts[..i]
      {
        currentPara := currentPara + [texts[i]];
      }
      assert currentPara == texts;
      var fullText := Concat(currentPara);
      lines := StripParagraphs(SplitNewlineRuns(fullText));
    } else {
      lines := [NoTextMarker];
    }
  }

  lemma {:induction false} ConcatHas(parts: seq<string>, i: nat, c: char)
    requires i < |parts| && c in parts[i]
    ensures c in Concat(parts)
    decreases |parts|
  {
    if i < |parts| - 1 {
      ConcatHas(parts[..|parts| - 1], i, c);
    }
  }

  lemma {:induction false} ConcatFrom(parts: seq<string>, c: char)
    requires c in Concat(parts)
    ensures exists i :: 0 <= i < |parts| && c in parts[i]
    decreases |parts|
  {
    var p := parts[..|parts| - 1];
    if c !in parts[|parts| - 1] {
      ConcatFrom(p, c);
      var i :| 0 <= i < |p| && c in p[i];
      assert parts[i] == p[i];
    }
  }

  lemma {:induction false} DropKeeps(s: string, c: char)
    requires c in s && c != '\n'
    ensures c in DropNewlines(s)
    decreases |s|
  {
    if s[0] != c {
      DropKeeps(s[1..], c);
    }
  }

  lemma {:induction false} ParagraphsFrom(pieces: seq<string>, i: nat)
    requires i < |pieces| && PyStrip(pieces[i]) != ""
    ensures Paragraphs(pieces) != []
    decreases |pieces|
  {
    if i < |pieces| - 1 {
      ParagraphsFrom(pieces[..|pieces| - 1], i);
    }
  }

  /** A slide with a kept run prints at least one paragraph. */
  lemma KeptRunGivesParagraph(runs: seq<Option<string>>)
    requires KeptRuns(runs) != []
    ensures SlideText(runs) == Paragraphs(SplitNewlineRuns(Concat(KeptRuns(runs))))
    ensures SlideText(runs) != []
  {
    var texts := KeptRuns(runs);
    var t := texts[0];
    KeptRunsExactly(runs);
    assert t in texts;
    TrimByShape(t, IsPySpace);
    var k :| 0 <= k < |t| && !IsPySpace(t[k]);
    var c := t[k];
    ConcatHas(texts, 0, c);
    DropKeeps(Concat(texts), c);
    var pieces := SplitNewlineRuns(Concat(texts));
    SplitRunsConcat(Concat(texts));
    ConcatFrom(pieces, c);
    var i :| 0 <= i < |pieces| && c in pieces[i];
    TrimByShape(pieces[i], IsPySpace);
    ParagraphsFrom(pieces, i);
  }

  /** Every printed paragraph is stripped: no whitespace at either end. */
  lemma {:induction false} ParagraphsStripped(pieces: seq<string>)
    ensures forall i :: 0 <= i < |Paragraphs(pieces)| ==>
              var q := Paragraphs(pieces)[i];
              !IsPySpace(q[0]) && !IsPySpace(q[|q| - 1])
    decreases |pieces|
  {
    if pieces != [] {
      ParagraphsStripped(pieces[..|pieces| - 1]);
      TrimByShape(pieces[|pieces| - 1], IsPySpace);
    }
  }

  // ----- The whole archive ------------------------------------------------

  /** One slide's output: the captured number and the lines under it. */
  datatype SlideOutput = SlideOutput(number: string, lines: seq<string>)

  /** The total count printed first and each slide's output, in reading order. */
  datatype Extraction = Extraction(totalSlides: nat, slides: seq<SlideOutput>)

  function Outputs(sel: seq<SlideRef>, runsOf: string -> seq<Option<string>>): (r: seq<SlideOutput>)
    ensures |r| == |sel|
    decreases |sel|
  {
    if sel == [] then []
    else
      var x := sel[|sel| - 1];
      Outputs(sel[..|sel| - 1], runsOf) + [SlideOutput(x.number, SlideText(runsOf(x.name)))]
  }

  lemma OutputsStep(sel: seq<SlideRef>, runsOf: string -> seq<Option<string>>, i: nat)
    requires i < |sel|
    ensures Outputs(sel[..i + 1], runsOf) ==
              Outputs(sel[..i], runsOf) + [SlideOutput(sel[i].number, SlideText(runsOf(sel[i].name)))]
  {
    assert sel[..i + 1][..i] == sel[..i];
  }

  function ExtractSpec(names: seq<string>, runsOf: string -> seq<Option<string>>): Result<Extraction, string> {
    match SelectSlides(names)
    case Failure(e) => Failure(e)
    case Success(sel) => Success(Extraction(|sel|, Outputs(sel, runsOf)))
  }

  /** Each output belongs to the slide in the same place of the sorted selection. */
  lemma {:induction false} OutputsAt(sel: seq<SlideRef>, runsOf: string -> seq<Option<string>>, i: nat)
    requires i < |sel|
    ensures Outputs(sel, runsOf)[i] == SlideOutput(sel[i].number, SlideText(runsOf(sel[i].name)))
    decreases |sel|
  {
    if i < |sel| - 1 {
      OutputsAt(sel[..|sel| - 1], runsOf, i);
    }
  }

  /**
   * `extract_text_from_pptx` on an archive given by its member names;
   * `runsOf` gives the texts of the `a:t` elements of a member, in document
   * order (`None` for an element without text).
   */
  method ExtractTextFromPptx(names: seq<string>, runsOf: string -> seq<Option<string>>)
    returns (r: Result<Extraction, string>)
    ensures r == ExtractSpec(names, runsOf)
  {
    var selected := SelectSlides(names);
    if selected.Failure? {
      return Failure(selected.error);
    }
    var slideFiles := selected.value;
    var outputs: seq<SlideOutput> := [];
    for i := 0 to |slideFiles|
      invariant outputs == Outputs(slideFiles[..i], runsOf)
    {
      OutputsStep(slideFiles, runsOf, i);
      var slideNum := slideFiles[i].number;
      var lines := SlideLines(runsOf(slideFiles[i].name));
      outputs := outputs + [SlideOutput(slideNum, lines)];
    }
    assert slideFiles[..|slideFiles|] == slideFiles;
    r := Success(Extraction(|slideFiles|, outputs));
  }
}

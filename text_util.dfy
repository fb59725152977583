/**
 * String operations that the scripts take from their languages' libraries:
 * prefix, suffix and substring tests, literal search, `split` and `join`,
 * JavaScript's `String.prototype.trim` and Python's `str.strip`.
 */
module TextUtil {
  import opened Wrappers

  predicate StartsWith(s: string, p: string) {
    |p| <= |s| && s[..|p|] == p
  }

  predicate EndsWith(s: string, p: string) {
    |p| <= |s| && s[|s| - |p|..] == p
  }

  /** `t` occurs in `s` starting at index `i`. */
  predicate OccursAt(s: string, t: string, i: int) {
    0 <= i && i + |t| <= |s| && s[i..i + |t|] == t
  }

  /** JavaScript `includes` and Python `in` on strings. */
  predicate Contains(s: string, t: string) {
    exists i | 0 <= i <= |s| - |t| :: OccursAt(s, t, i)
  }

  /** The first occurrence of `t` in `s` at or after `from`. */
  function FindFrom(s: string, t: string, from: nat): (r: Option<nat>)
    ensures r.Some? ==> from <= r.value && OccursAt(s, t, r.value)
    ensures r.Some? ==> forall j :: from <= j < r.value ==> !OccursAt(s, t, j)
    ensures r.None? ==> forall j :: from <= j ==> !OccursAt(s, t, j)
    decreases |s| - from
  {
    if from + |t| > |s| then None
    else if OccursAt(s, t, from) then Some(from)
    else FindFrom(s, t, from + 1)
  }

  lemma ContainsFind(s: string, t: string)
    ensures Contains(s, t) <==> FindFrom(s, t, 0).Some?
  {
    if FindFrom(s, t, 0).Some? {
      assert OccursAt(s, t, FindFrom(s, t, 0).value);
    }
  }

  /** `join` of JavaScript arrays and of Python's `str.join`. */
  function Join(parts: seq<string>, sep: string): string
    decreases |parts|
  {
    if |parts| == 0 then ""
    else if |parts| == 1 then parts[0]
    else parts[0] + sep + Join(parts[1..], sep)
  }

  /** Concatenation with no separator, Python's `''.join`. */
  function Concat(parts: seq<string>): string
    decreases |parts|
  {
    if |parts| == 0 then "" else Concat(parts[..|parts| - 1]) + parts[|parts| - 1]
  }

  /**
   * `split` on a literal separator (or on a regular expression that
   * matches exactly that literal): the separator occurrences are found
   * left to right without overlap.
   */
  function Split(s: string, sep: string): (parts: seq<string>)
    requires |sep| > 0
    ensures |parts| >= 1
    ensures Join(parts, sep) == s
    ensures forall i :: 0 <= i < |parts| ==> !Contains(parts[i], sep)
    ensures forall i :: 0 <= i < |parts| - 1 ==> !Contains(parts[i] + sep[..|sep| - 1], sep)
    decreases |s|
  {
    match FindFrom(s, sep, 0)
    case None => [s]
    case Some(i) =>
      var rest := Split(s[i + |sep|..], sep);
      var head := s[..i];
      assert !Contains(head, sep) by {
        forall j | 0 <= j <= |head| - |sep| ensures !OccursAt(head, sep, j) {
          assert head[j..j + |sep|] == s[j..j + |sep|];
          assert !OccursAt(s, sep, j);
        }
      }
      assert s == head + sep + s[i + |sep|..];
      LeftmostCut(s, sep, i);
      [head] + rest
  }

  /**
   * The cut is at the leftmost occurrence: no occurrence starts inside the
   * text before it, even one that would run into the separator.
   */
  lemma LeftmostCut(s: string, sep: string, i: nat)
    requires |sep| > 0 && OccursAt(s, sep, i)
    requires forall j :: 0 <= j < i ==> !OccursAt(s, sep, j)
    ensures !Contains(s[..i] + sep[..|sep| - 1], sep)
  {
    var t := s[..i] + sep[..|sep| - 1];
    forall k | 0 <= k < |t| ensures t[k] == s[k] {
      if k >= i {
        assert t[k] == sep[k - i] == s[i..i + |sep|][k - i];
      }
    }
    forall j | 0 <= j <= |t| - |sep| ensures !OccursAt(t, sep, j) {
      assert t[j..j + |sep|] == s[j..j + |sep|];
      assert !OccursAt(s, sep, j);
    }
  }

  /** Splitting the join of separator-free parts on a one-character separator gives the parts back. */
  lemma {:induction false} SplitJoin(parts: seq<string>, c: char)
    requires |parts| >= 1
    requires forall i :: 0 <= i < |parts| ==> c !in parts[i]
    ensures Split(Join(parts, [c]), [c]) == parts
    decreases |parts|
  {
    var s := Join(parts, [c]);
    var h := parts[0];
    if |parts| == 1 {
      NoCharNoOccurrence(s, c, 0);
    } else {
      var rest := Join(parts[1..], [c]);
      assert s == h + [c] + rest;
      NoCharNoOccurrence(h, c, 0);
      forall j | 0 <= j < |h| ensures !OccursAt(s, [c], j) {
        assert s[j] == h[j];
      }
      assert OccursAt(s, [c], |h|);
      assert FindFrom(s, [c], 0) == Some(|h|);
      assert s[|h| + 1..] == rest;
      assert s[..|h|] == h;
      SplitJoin(parts[1..], c);
    }
  }

  lemma NoCharNoOccurrence(s: string, c: char, from: nat)
    requires c !in s
    ensures FindFrom(s, [c], from) == None
  {
    forall j | 0 <= j < |s| ensures !OccursAt(s, [c], j) {
      assert s[j..j + 1] == [s[j]];
    }
  }

  /** Drops the leading characters that satisfy `ws`. */
  function TrimStart(s: string, ws: char -> bool): string
    decreases |s|
  {
    if |s| > 0 && ws(s[0]) then TrimStart(s[1..], ws) else s
  }

  /** `TrimStart` drops a prefix of characters satisfying `ws`, and stops at one that does not. */
  lemma {:induction false} TrimStartShape(s: string, ws: char -> bool)
    ensures var r := TrimStart(s, ws);
            && |r| <= |s| && r == s[|s| - |r|..]
            && (forall i :: 0 <= i < |s| - |r| ==> ws(s[i]))
            && (r != [] ==> !ws(r[0]))
    decreases |s|
  {
    if |s| > 0 && ws(s[0]) {
      TrimStartShape(s[1..], ws);
    }
  }

  /** Drops the trailing characters that satisfy `ws`. */
  function TrimEnd(s: string, ws: char -> bool): string
    decreases |s|
  {
    if |s| > 0 && ws(s[|s| - 1]) then TrimEnd(s[..|s| - 1], ws) else s
  }

  /** `TrimEnd` drops a suffix of characters satisfying `ws`, and stops at one that does not. */
  lemma {:induction false} TrimEndShape(s: string, ws: char -> bool)
    ensures var r := TrimEnd(s, ws);
            && |r| <= |s| && r == s[..|r|]
            && (forall i :: |r| <= i < |s| ==> ws(s[i]))
            && (r != [] ==> !ws(r[|r| - 1]))
    decreases |s|
  {
    if |s| > 0 && ws(s[|s| - 1]) {
      TrimEndShape(s[..|s| - 1], ws);
    }
  }

  /** Both ends trimmed. */
  function TrimBy(s: string, ws: char -> bool): string {
    TrimEnd(TrimStart(s, ws), ws)
  }

  /**
   * The trimmed text is empty exactly when every character of `s`
   * satisfies `ws`; otherwise it neither starts nor ends with such a
   * character; and it holds only characters of `s`.
   */
  lemma TrimByShape(s: string, ws: char -> bool)
    ensures var r := TrimBy(s, ws);
            && (r == [] <==> forall i :: 0 <= i < |s| ==> ws(s[i]))
            && (r != [] ==> !ws(r[0]) && !ws(r[|r| - 1]))
            && (forall c :: c in r ==> c in s)
  {
    var a := TrimStart(s, ws);
    TrimStartShape(s, ws);
    var r := TrimEnd(a, ws);
    TrimEndShape(a, ws);
    var k := |s| - |a|;
    assert r == a[..|r|];
    if r != [] {
      assert r[0] == a[0];
    }
    forall c | c in r ensures c in s {
      var i :| 0 <= i < |r| && r[i] == c;
      assert r[i] == a[i] == s[k + i];
    }
  }

  /** Characters removed by JavaScript's `trim`: WhiteSpace and LineTerminator of ECMA-262. */
  predicate IsJsWhiteSpace(c: char) {
    c == '\t' || c == '\n' || c == '\U{B}' || c == '\U{C}' || c == '\r' || c == ' '
    || c == '\U{A0}' || c == '\U{1680}' || ('\U{2000}' <= c <= '\U{200A}')
    || c == '\U{2028}' || c == '\U{2029}' || c == '\U{202F}' || c == '\U{205F}'
    || c == '\U{3000}' || c == '\U{FEFF}'
  }

  /** Characters for which Python's `str.isspace` holds (and which `str.strip` removes). */
  predicate IsPySpace(c: char) {
    ('\t' <= c <= '\r') || ('\U{1C}' <= c <= '\U{1F}') || c == ' ' || c == '\U{85}'
    || c == '\U{A0}' || c == '\U{1680}' || ('\U{2000}' <= c <= '\U{200A}')
    || c == '\U{2028}' || c == '\U{2029}' || c == '\U{202F}' || c == '\U{205F}'
    || c == '\U{3000}'
  }

  /** The characters JavaScript's regular-expression `.` does not match. */
  predicate IsJsLineTerminator(c: char) {
    c == '\n' || c == '\r' || c == '\U{2028}' || c == '\U{2029}'
  }

  function JsTrim(s: string): string {
    TrimBy(s, IsJsWhiteSpace)
  }

  function PyStrip(s: string): string {
    TrimBy(s, IsPySpace)
  }
}

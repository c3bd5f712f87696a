/** The Python string operations the extraction pipeline relies on: whitespace stripping,
    `rstrip` of one character, the `in` substring test and `split` on one separator. */
module Text {

  /** Python's whitespace set, shared by `str.isspace`, `str.strip()` and the regex class `\s`
      on `str` patterns. */
  predicate IsSpace(c: char)
  {
    var n := c as int;
    || (0x09 <= n <= 0x0D) || (0x1C <= n <= 0x20) || n == 0x85 || n == 0xA0
    || n == 0x1680 || (0x2000 <= n <= 0x200A) || n == 0x2028 || n == 0x2029
    || n == 0x202F || n == 0x205F || n == 0x3000
  }

  /** The end of the run of characters satisfying `drop` that starts at `from`. */
  function SkipWhile(s: string, from: nat, drop: char -> bool): (n: nat)
    requires from <= |s|
    ensures from <= n <= |s|
    ensures forall i :: from <= i < n ==> drop(s[i])
    ensures n == |s| || !drop(s[n])
    decreases |s| - from
  {
    if from < |s| && drop(s[from]) then SkipWhile(s, from + 1, drop) else from
  }

  /** The start of the run of characters satisfying `drop` that ends just before `end`. */
  function SkipBackWhile(s: string, end: nat, drop: char -> bool): (n: nat)
    requires end <= |s|
    ensures n <= end
    ensures forall i :: n <= i < end ==> drop(s[i])
    ensures n == 0 || !drop(s[n - 1])
    decreases end
  {
    if end > 0 && drop(s[end - 1]) then SkipBackWhile(s, end - 1, drop) else end
  }

  /** A run is determined by where it starts: any `n` with the run's properties is its end. */
  lemma SkipWhileUnique(s: string, from: nat, drop: char -> bool, n: nat)
    requires from <= n <= |s|
    requires forall i :: from <= i < n ==> drop(s[i])
    requires n == |s| || !drop(s[n])
    ensures SkipWhile(s, from, drop) == n
  {
  }

  lemma SkipBackWhileUnique(s: string, end: nat, drop: char -> bool, n: nat)
    requires n <= end <= |s|
    requires forall i :: n <= i < end ==> drop(s[i])
    requires n == 0 || !drop(s[n - 1])
    ensures SkipBackWhile(s, end, drop) == n
  {
  }

  /** Every character of `w` is whitespace. */
  ghost predicate AllSpace(w: string)
  {
    forall i {:trigger IsSpace(w[i])} :: 0 <= i < |w| ==> IsSpace(w[i])
  }

  /** The position of the first non-whitespace character at or after `from`. */
  function SkipSpace(s: string, from: nat): (n: nat)
    requires from <= |s|
    ensures from <= n <= |s|
    ensures forall i {:trigger IsSpace(s[i])} :: from <= i < n ==> IsSpace(s[i])
    ensures n == |s| || !IsSpace(s[n])
  {
    SkipWhile(s, from, IsSpace)
  }

  /** Python `s.lstrip()`. */
  function TrimStart(s: string): (r: string)
    ensures |r| <= |s| && r == s[|s| - |r|..]
    ensures AllSpace(s[..|s| - |r|])
    ensures |r| == 0 || !IsSpace(r[0])
  {
    s[SkipSpace(s, 0)..]
  }

  /** `r` is `s` with `a` characters removed in front and the rest removed at the back,
      every removed character being whitespace. */
  ghost predicate SpaceEnclosed(s: string, r: string, a: int)
  {
    && 0 <= a && a + |r| <= |s| && r == s[a..a + |r|]
    && (forall i {:trigger IsSpace(s[i])} :: 0 <= i < a ==> IsSpace(s[i]))
    && (forall i {:trigger IsSpace(s[i])} :: a + |r| <= i < |s| ==> IsSpace(s[i]))
  }

  /** Python `s.strip()`: whitespace removed from both ends. */
  function Strip(s: string): (r: string)
    ensures exists a :: SpaceEnclosed(s, r, a)
    ensures |r| == 0 || (!IsSpace(r[0]) && !IsSpace(r[|r| - 1]))
  {
    var a := SkipSpace(s, 0);
    var b := SkipBackWhile(s, |s|, IsSpace);
    if a <= b then
      assert SpaceEnclosed(s, s[a..b], a);
      s[a..b]
    else
      assert SpaceEnclosed(s, [], a);
      []
  }

  /** Whitespace around a text with non-blank ends is exactly what `strip` removes. */
  lemma StripPadded(w1: string, x: string, w2: string)
    requires AllSpace(w1) && AllSpace(w2)
    requires |x| > 0 && !IsSpace(x[0]) && !IsSpace(x[|x| - 1])
    ensures Strip(w1 + x + w2) == x
  {
    var s := w1 + x + w2;
    assert s[|w1|] == x[0];
    SkipWhileUnique(s, 0, IsSpace, |w1|);
    assert s[|w1| + |x| - 1] == x[|x| - 1];
    SkipBackWhileUnique(s, |s|, IsSpace, |w1| + |x|);
    assert s[|w1|..|w1| + |x|] == x;
  }

  /** The last character of `s` is `c`. */
  predicate EndsWith(s: string, c: char)
  {
    |s| > 0 && s[|s| - 1] == c
  }

  /** Python `s.rstrip(c)`: every trailing occurrence of `c` removed. */
  function RStrip(s: string, c: char): (r: string)
    ensures r <= s
    ensures forall i :: |r| <= i < |s| ==> s[i] == c
    ensures !EndsWith(r, c)
  {
    s[..SkipBackWhile(s, |s|, x => x == c)]
  }

  /** `rstrip(c)` removes exactly a trailing run of `c` from a text that does not otherwise end in `c`. */
  lemma RStripPadded(x: string, c: char, run: string)
    requires |x| == 0 || x[|x| - 1] != c
    requires forall i :: 0 <= i < |run| ==> run[i] == c
    ensures RStrip(x + run, c) == x
  {
    var s := x + run;
    assert |x| == 0 || s[|x| - 1] == x[|x| - 1];
    SkipBackWhileUnique(s, |s|, y => y == c, |x|);
    assert s[..|x|] == x;
  }

  /** `needle` occurs in `hay` starting at position `i`. */
  ghost predicate OccursAt(needle: string, hay: string, i: int)
  {
    0 <= i <= |hay| - |needle| && hay[i..i + |needle|] == needle
  }

  /** `needle` occurs as a contiguous block of `hay`. */
  ghost predicate IsInfix(needle: string, hay: string)
  {
    exists i :: OccursAt(needle, hay, i)
  }

  /** Python `needle in hay` on strings. */
  predicate Contains(hay: string, needle: string)
    decreases |hay|
  {
    needle <= hay || (|hay| > 0 && Contains(hay[1..], needle))
  }

  /** The executable test agrees with the positional definition of a substring. */
  lemma {:induction false} ContainsIsInfix(hay: string, needle: string)
    ensures Contains(hay, needle) <==> IsInfix(needle, hay)
    decreases |hay|
  {
    if needle <= hay {
      assert OccursAt(needle, hay, 0);
    } else if |hay| > 0 {
      ContainsIsInfix(hay[1..], needle);
      if IsInfix(needle, hay) {
        var i :| OccursAt(needle, hay, i);
        OccursInTail(needle, hay, i);
      }
      if IsInfix(needle, hay[1..]) {
        var i :| OccursAt(needle, hay[1..], i);
        OccursAfterHead(needle, hay, i);
      }
    }
  }

  /** An occurrence that is not a prefix is an occurrence in the tail. */
  lemma OccursInTail(needle: string, hay: string, i: int)
    requires OccursAt(needle, hay, i) && !(needle <= hay)
    ensures |hay| > 0 && OccursAt(needle, hay[1..], i - 1)
  {
    assert i != 0;
    assert hay[1..][i - 1..i - 1 + |needle|] == hay[i..i + |needle|];
  }

  /** An occurrence in the tail is an occurrence one position later in the whole. */
  lemma OccursAfterHead(needle: string, hay: string, i: int)
    requires |hay| > 0 && OccursAt(needle, hay[1..], i)
    ensures OccursAt(needle, hay, i + 1)
  {
    assert hay[1..][i..i + |needle|] == hay[i + 1..i + 1 + |needle|];
  }

  /** Rebuilds a string from its `split` pieces: the inverse of `Split`. */
  function Join(parts: seq<string>, sep: char): string
    requires |parts| >= 1
  {
    if |parts| == 1 then parts[0] else parts[0] + [sep] + Join(parts[1..], sep)
  }

  /** Python `s.split(sep)` for a one-character separator: never empty, and an empty piece
      stands for every leading, trailing or doubled separator. */
  function Split(s: string, sep: char): (parts: seq<string>)
    ensures |parts| >= 1
    ensures forall i :: 0 <= i < |parts| ==> sep !in parts[i]
    ensures Join(parts, sep) == s
    decreases |s|
  {
    if |s| == 0 then [[]]
    else
      var rest := Split(s[1..], sep);
      if s[0] == sep then [[]] + rest
      else [[s[0]] + rest[0]] + rest[1..]
  }

  /** Python `s.split('/')[-1]`. */
  function LastSegment(s: string): string
  {
    var parts := Split(s, '/');
    parts[|parts| - 1]
  }

  lemma {:induction false} JoinEndsWithLast(parts: seq<string>, sep: char)
    requires |parts| >= 1
    requires forall i :: 0 <= i < |parts| ==> sep !in parts[i]
    ensures var s, last := Join(parts, sep), parts[|parts| - 1];
            |last| <= |s| && s[|s| - |last|..] == last
            && (|last| == |s| || s[|s| - |last| - 1] == sep)
            && (|parts| == 1 <==> |last| == |s|)
  {
    if |parts| > 1 {
      JoinEndsWithLast(parts[1..], sep);
    }
  }

  /** The last segment is the text after the final '/', or the whole string when it has no '/'. */
  lemma LastSegmentIsTextAfterFinalSlash(s: string)
    ensures var r := LastSegment(s);
            |r| <= |s| && s[|s| - |r|..] == r && '/' !in r
            && (|r| == |s| || s[|s| - |r| - 1] == '/')
            && ('/' !in s <==> r == s)
  {
    JoinEndsWithLast(Split(s, '/'), '/');
  }

  /** A string ending in '/' has an empty last segment. */
  lemma TrailingSlashGivesEmptySegment(s: string)
    requires |s| > 0 && s[|s| - 1] == '/'
    ensures LastSegment(s) == []
  {
    LastSegmentIsTextAfterFinalSlash(s);
  }
}

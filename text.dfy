/**
 * The JavaScript string operations the application relies on: the `\s` and
 * `\w` character classes, `length` in UTF-16 code units, `toLowerCase`,
 * `trim`, `split(/\s+/)`, `split(' ')`, `replace(/[^\w\s]/g, '')`, and the
 * first `{` and last `}` that bound the match of `/(\{[\s\S]*\})/`.
 */
module Text {

  /**
   * JavaScript's `\s`, which is also what `trim` removes: the WhiteSpace code
   * points (tab, vertical tab, form feed, space, no-break space, the zero width
   * no-break space U+FEFF and the space separators U+1680, U+2000 to U+200A,
   * U+202F, U+205F, U+3000) and the LineTerminators (line feed, carriage
   * return, U+2028, U+2029).
   */
  predicate IsSpace(c: char) {
    ('\t' <= c <= '\r') || c == ' ' || c == '\U{00A0}' || c == '\U{1680}' || ('\U{2000}' <= c <= '\U{200A}') ||
    c == '\U{2028}' || c == '\U{2029}' || c == '\U{202F}' || c == '\U{205F}' || c == '\U{3000}' || c == '\U{FEFF}'
  }

  /** JavaScript's `\w` (no `u` flag): ASCII letters, digits and the underscore. */
  predicate IsWordChar(c: char) {
    ('a' <= c <= 'z') || ('A' <= c <= 'Z') || ('0' <= c <= '9') || c == '_'
  }

  predicate IsUpperAscii(c: char) {
    'A' <= c <= 'Z'
  }

  /** Every character is white space; the empty string is blank. */
  predicate IsBlank(s: string) {
    forall i :: 0 <= i < |s| ==> IsSpace(s[i])
  }

  predicate NoSpace(s: string) {
    forall i :: 0 <= i < |s| ==> !IsSpace(s[i])
  }

  predicate NoUpper(s: string) {
    forall i :: 0 <= i < |s| ==> !IsUpperAscii(s[i])
  }

  /** Every character of `s[lo..hi]` is white space. */
  predicate SpacesIn(s: string, lo: int, hi: int)
    requires 0 <= lo && hi <= |s|
  {
    forall n :: lo <= n < hi ==> IsSpace(s[n])
  }

  /** No character of `s[lo..hi]` is white space. */
  predicate NoSpacesIn(s: string, lo: int, hi: int)
    requires 0 <= lo && hi <= |s|
  {
    forall n :: lo <= n < hi ==> !IsSpace(s[n])
  }

  // ---------------------------------------------------------------- length

  /** The UTF-16 code units of one character: two for a character outside the Basic Multilingual Plane. */
  function Utf16Units(c: char): nat {
    if c >= '\U{10000}' then 2 else 1
  }

  /** `s.length`, which counts UTF-16 code units rather than characters. */
  function Utf16Length(s: string): (n: nat)
    ensures |s| <= n <= 2 * |s|
  {
    if s == [] then 0 else Utf16Units(s[0]) + Utf16Length(s[1..])
  }

  /** `s.length > 2`, decided without adding up the code units. */
  predicate LongerThanTwoUnits(s: string) {
    |s| > 2 || (|s| == 2 && (s[0] >= '\U{10000}' || s[1] >= '\U{10000}'))
  }

  /** More than two code units means three characters, or two of which one lies outside the Basic Multilingual Plane. */
  lemma LongerThanTwoUnitsIff(s: string)
    ensures LongerThanTwoUnits(s) <==> Utf16Length(s) > 2
  {
    if |s| == 2 {
      assert s[1..][1..] == [];
    } else if |s| == 1 {
      assert s[1..] == [];
    }
  }

  /** A character outside the Basic Multilingual Plane counts two: `"x😀".length` is 3. */
  lemma NonBmpCountsTwo()
    ensures Utf16Length("x\U{1F600}") == 3
  {
    assert "x\U{1F600}"[1..] == "\U{1F600}";
    assert "\U{1F600}"[1..] == [];
  }

  // ---------------------------------------------------------------- toLowerCase

  function LowerChar(c: char): (d: char)
    ensures !IsUpperAscii(d)
    ensures IsSpace(d) <==> IsSpace(c)
    ensures IsWordChar(d) <==> IsWordChar(c)
  {
    if IsUpperAscii(c) then (c as int + 32) as char else c
  }

  /** `s.toLowerCase()` restricted to the ASCII letters. */
  function ToLower(s: string): (r: string)
    ensures |r| == |s|
    ensures forall i :: 0 <= i < |s| ==> r[i] == LowerChar(s[i])
    ensures NoUpper(r)
  {
    seq(|s|, i requires 0 <= i < |s| => LowerChar(s[i]))
  }

  // ---------------------------------------------------------------- trim

  /** The first index at or after `i` whose character is not white space, or `|s|`. */
  function SkipSpaces(s: string, i: nat): (k: nat)
    requires i <= |s|
    ensures i <= k <= |s|
    ensures k < |s| ==> !IsSpace(s[k])
    decreases |s| - i
  {
    if i < |s| && IsSpace(s[i]) then SkipSpaces(s, i + 1) else i
  }

  /** The start of the run of white space that ends `s[..j]`. */
  function SkipSpacesBack(s: string, j: nat): (k: nat)
    requires j <= |s|
    ensures k <= j
    ensures k > 0 ==> !IsSpace(s[k - 1])
  {
    if j > 0 && IsSpace(s[j - 1]) then SkipSpacesBack(s, j - 1) else j
  }

  lemma {:induction false} SkipSpacesAreSpaces(s: string, i: nat)
    requires i <= |s|
    ensures SpacesIn(s, i, SkipSpaces(s, i))
    decreases |s| - i
  {
    if i < |s| && IsSpace(s[i]) {
      SkipSpacesAreSpaces(s, i + 1);
    }
  }

  lemma {:induction false} SkipSpacesBackAreSpaces(s: string, j: nat)
    requires j <= |s|
    ensures SpacesIn(s, SkipSpacesBack(s, j), j)
  {
    if j > 0 && IsSpace(s[j - 1]) {
      SkipSpacesBackAreSpaces(s, j - 1);
    }
  }

  /** `SkipSpaces` stops at the one index after a blank stretch that holds a non-space. */
  lemma {:induction false} SkipSpacesUnique(s: string, i: nat, k: nat)
    requires i <= k <= |s| && SpacesIn(s, i, k) && (k < |s| ==> !IsSpace(s[k]))
    ensures SkipSpaces(s, i) == k
    decreases k - i
  {
    if i < k {
      SkipSpacesUnique(s, i + 1, k);
    }
  }

  /** `SkipSpacesBack` stops at the one index before a blank stretch that follows a non-space. */
  lemma {:induction false} SkipSpacesBackUnique(s: string, j: nat, k: nat)
    requires k <= j <= |s| && SpacesIn(s, k, j) && (k > 0 ==> !IsSpace(s[k - 1]))
    ensures SkipSpacesBack(s, j) == k
    decreases j - k
  {
    if k < j {
      SkipSpacesBackUnique(s, j - 1, k);
    }
  }

  /** `s.trim()`: `s` without its leading and trailing white space. */
  function Trim(s: string): (r: string)
    ensures |r| <= |s|
  {
    var i := SkipSpaces(s, 0);
    if i == |s| then []
    else
      SkipSpacesBackAreSpaces(s, |s|);
      s[i..SkipSpacesBack(s, |s|)]
  }

  /** `trim` yields the empty string exactly on blank input. */
  lemma TrimEmptyIffBlank(s: string)
    ensures IsBlank(s) <==> Trim(s) == []
  {
    SkipSpacesAreSpaces(s, 0);
    if SkipSpaces(s, 0) < |s| {
      SkipSpacesBackAreSpaces(s, |s|);
    }
  }

  /**
   * On non-blank input `trim` keeps the slice between the blank prefix and the
   * blank suffix, and that slice starts and ends with a non-space.
   */
  lemma TrimSlice(s: string)
    requires !IsBlank(s)
    ensures SkipSpaces(s, 0) < SkipSpacesBack(s, |s|)
    ensures Trim(s) == s[SkipSpaces(s, 0)..SkipSpacesBack(s, |s|)]
    ensures SpacesIn(s, 0, SkipSpaces(s, 0)) && SpacesIn(s, SkipSpacesBack(s, |s|), |s|)
    ensures !IsSpace(Trim(s)[0]) && !IsSpace(Trim(s)[|Trim(s)| - 1])
  {
    SkipSpacesAreSpaces(s, 0);
    SkipSpacesBackAreSpaces(s, |s|);
  }

  /** White space added around a string does not survive `trim`. */
  lemma TrimPadded(s: string, pad: string)
    requires IsBlank(pad)
    ensures Trim(pad + s + pad) == Trim(s)
  {
    var x := pad + s + pad;
    if IsBlank(s) {
      assert IsBlank(x);
      TrimEmptyIffBlank(s);
      TrimEmptyIffBlank(x);
    } else {
      var lo, hi := PaddedBounds(s, pad);
      assert Trim(s) == s[lo..hi];
      assert Trim(x) == x[|pad| + lo..|pad| + hi];
      MiddleSlice(pad, s, pad, lo, hi);
    }
  }

  /** Where `trim` cuts `pad + s + pad`: the cuts of `s`, moved right by `|pad|`. */
  lemma PaddedBounds(s: string, pad: string) returns (lo: nat, hi: nat)
    requires IsBlank(pad) && !IsBlank(s)
    ensures lo == SkipSpaces(s, 0) && hi == SkipSpacesBack(s, |s|) && lo < hi <= |s|
    ensures !IsBlank(pad + s + pad)
    ensures SkipSpaces(pad + s + pad, 0) == |pad| + lo
    ensures SkipSpacesBack(pad + s + pad, |pad + s + pad|) == |pad| + hi
  {
    lo, hi := SkipSpaces(s, 0), SkipSpacesBack(s, |s|);
    TrimSlice(s);
    PaddedFront(s, pad, lo);
    PaddedBack(s, pad, hi);
  }

  lemma PaddedFront(s: string, pad: string, lo: nat)
    requires IsBlank(pad) && lo < |s| && SpacesIn(s, 0, lo) && !IsSpace(s[lo])
    ensures !IsBlank(pad + s + pad)
    ensures SkipSpaces(pad + s + pad, 0) == |pad| + lo
  {
    var x := pad + s + pad;
    assert x[|pad| + lo] == s[lo];
    forall n | 0 <= n < |pad| + lo ensures IsSpace(x[n]) {
      if n >= |pad| { assert x[n] == s[n - |pad|]; }
    }
    SkipSpacesUnique(x, 0, |pad| + lo);
  }

  lemma PaddedBack(s: string, pad: string, hi: nat)
    requires IsBlank(pad) && 0 < hi <= |s| && SpacesIn(s, hi, |s|) && !IsSpace(s[hi - 1])
    ensures SkipSpacesBack(pad + s + pad, |pad + s + pad|) == |pad| + hi
  {
    var x := pad + s + pad;
    assert x[|pad| + hi - 1] == s[hi - 1];
    forall n | |pad| + hi <= n < |x| ensures IsSpace(x[n]) {
      if n < |pad| + |s| { assert x[n] == s[n - |pad|]; }
    }
    SkipSpacesBackUnique(x, |x|, |pad| + hi);
  }

  lemma MiddleSlice(a: string, s: string, b: string, i: nat, j: nat)
    requires i <= j <= |s|
    ensures (a + s + b)[|a| + i..|a| + j] == s[i..j]
  {
  }

  // ---------------------------------------------------------------- split(/\s+/)

  /** The first index at or after `i` whose character is white space, or `|s|`. */
  function SkipNonSpaces(s: string, i: nat): (k: nat)
    requires i <= |s|
    ensures i <= k <= |s|
    ensures k < |s| ==> IsSpace(s[k])
    decreases |s| - i
  {
    if i < |s| && !IsSpace(s[i]) then SkipNonSpaces(s, i + 1) else i
  }

  lemma {:induction false} SkipNonSpacesAreNotSpaces(s: string, i: nat)
    requires i <= |s|
    ensures NoSpacesIn(s, i, SkipNonSpaces(s, i))
    decreases |s| - i
  {
    if i < |s| && !IsSpace(s[i]) {
      SkipNonSpacesAreNotSpaces(s, i + 1);
    }
  }

  /** `SkipNonSpaces` stops at the one index after a stretch without white space that holds white space or ends `s`. */
  lemma {:induction false} SkipNonSpacesUnique(s: string, i: nat, k: nat)
    requires i <= k <= |s| && NoSpacesIn(s, i, k) && (k < |s| ==> IsSpace(s[k]))
    ensures SkipNonSpaces(s, i) == k
    decreases k - i
  {
    if i < k {
      SkipNonSpacesUnique(s, i + 1, k);
    }
  }

  /** The index after a stretch of lower-case ASCII letters holds no white space before it. */
  lemma LettersNoSpace(s: string, lo: nat, hi: nat)
    requires lo <= hi <= |s| && forall n :: lo <= n < hi ==> 'a' <= s[n] <= 'z'
    ensures NoSpacesIn(s, lo, hi)
  {
  }

  /** `s[start..].split(/\s+/)`. */
  function SplitWsFrom(s: string, start: nat): (r: seq<string>)
    requires start <= |s|
    ensures |r| >= 1
    decreases |s| - start
  {
    var i := SkipNonSpaces(s, start);
    if i == |s| then [s[start..]] else [s[start..i]] + SplitWsFrom(s, SkipSpaces(s, i))
  }

  /**
   * `s.split(/\s+/)`: the pieces between maximal runs of white space. A run at
   * the start or the end of `s` yields an empty first or last piece, and the
   * empty string yields one empty piece.
   */
  function SplitWs(s: string): (r: seq<string>)
    ensures |r| >= 1
  {
    SplitWsFrom(s, 0)
  }

  /**
   * The pieces hold no white space, only the first and the last can be empty,
   * and the pieces of a string without capitals have none.
   */
  lemma SplitWsPieces(s: string)
    ensures forall k :: 0 <= k < |SplitWs(s)| ==> NoSpace(SplitWs(s)[k])
    ensures forall k :: 0 < k < |SplitWs(s)| - 1 ==> SplitWs(s)[k] != []
    ensures NoUpper(s) ==> forall k :: 0 <= k < |SplitWs(s)| ==> NoUpper(SplitWs(s)[k])
  {
    SplitWsFromPieces(s, 0);
  }

  lemma {:induction false} SplitWsFromPieces(s: string, start: nat)
    requires start <= |s|
    ensures forall k :: 0 <= k < |SplitWsFrom(s, start)| ==> NoSpace(SplitWsFrom(s, start)[k])
    ensures forall k :: 0 < k < |SplitWsFrom(s, start)| - 1 ==> SplitWsFrom(s, start)[k] != []
    ensures start < |s| && !IsSpace(s[start]) ==> SplitWsFrom(s, start)[0] != []
    ensures NoUpper(s) ==> forall k :: 0 <= k < |SplitWsFrom(s, start)| ==> NoUpper(SplitWsFrom(s, start)[k])
    decreases |s| - start
  {
    var i := SkipNonSpaces(s, start);
    SkipNonSpacesAreNotSpaces(s, start);
    var r := SplitWsFrom(s, start);
    if i == |s| {
      assert r == [s[start..]];
      PieceNoSpace(s, start, |s|);
      PieceNoUpper(s, start, |s|);
      assert s[start..|s|] == s[start..];
    } else {
      var j := SkipSpaces(s, i);
      var rest := SplitWsFrom(s, j);
      SplitWsFromPieces(s, j);
      assert r == [s[start..i]] + rest;
      PieceNoSpace(s, start, i);
      PieceNoUpper(s, start, i);
      assert forall k :: 0 < k < |r| ==> r[k] == rest[k - 1];
    }
  }

  /** A last stretch without white space is the last piece. */
  lemma SplitWsFromLast(s: string, start: nat)
    requires start <= |s| && NoSpacesIn(s, start, |s|)
    ensures SplitWsFrom(s, start) == [s[start..]]
  {
    SkipNonSpacesUnique(s, start, |s|);
  }

  /** A stretch without white space followed by a maximal white-space run is one piece, and the split goes on after the run. */
  lemma SplitWsFromStep(s: string, start: nat, i: nat, j: nat)
    requires start <= i < j <= |s| && NoSpacesIn(s, start, i) && SpacesIn(s, i, j) && (j < |s| ==> !IsSpace(s[j]))
    ensures SplitWsFrom(s, start) == [s[start..i]] + SplitWsFrom(s, j)
  {
    SkipNonSpacesUnique(s, start, i);
    SkipSpacesUnique(s, i, j);
  }

  /** The runs of white space that `s[start..].split(/\s+/)` cuts at, in order. */
  function SplitWsRunsFrom(s: string, start: nat): (runs: seq<string>)
    requires start <= |s|
    ensures |runs| + 1 == |SplitWsFrom(s, start)|
    decreases |s| - start
  {
    var i := SkipNonSpaces(s, start);
    if i == |s| then [] else [s[i..SkipSpaces(s, i)]] + SplitWsRunsFrom(s, SkipSpaces(s, i))
  }

  /** `pieces[0] + runs[0] + pieces[1] + ... + runs[n - 2] + pieces[n - 1]`. */
  function Interleave(pieces: seq<string>, runs: seq<string>): string
    requires |runs| + 1 == |pieces|
    decreases |runs|
  {
    if runs == [] then pieces[0] else pieces[0] + runs[0] + Interleave(pieces[1..], runs[1..])
  }

  /**
   * `split(/\s+/)` cuts exactly at the maximal runs of white space: `s` is its
   * pieces separated by non-empty white-space runs, and since no piece holds
   * white space, every run is maximal.
   */
  lemma SplitWsInterleaves(s: string)
    ensures var pieces, runs := SplitWs(s), SplitWsRunsFrom(s, 0);
      Interleave(pieces, runs) == s &&
      forall k :: 0 <= k < |runs| ==> runs[k] != [] && IsBlank(runs[k])
  {
    SplitWsFromInterleaves(s, 0);
    assert s[0..] == s;
  }

  lemma {:induction false} SplitWsFromInterleaves(s: string, start: nat)
    requires start <= |s|
    ensures var pieces, runs := SplitWsFrom(s, start), SplitWsRunsFrom(s, start);
      Interleave(pieces, runs) == s[start..] &&
      forall k :: 0 <= k < |runs| ==> runs[k] != [] && IsBlank(runs[k])
    decreases |s| - start
  {
    var i := SkipNonSpaces(s, start);
    if i == |s| {
      assert s[start..|s|] == s[start..];
    } else {
      var j := SkipSpaces(s, i);
      SplitWsFromInterleaves(s, j);
      var pieces, runs := SplitWsFrom(s, start), SplitWsRunsFrom(s, start);
      var rest, restRuns := SplitWsFrom(s, j), SplitWsRunsFrom(s, j);
      assert pieces == [s[start..i]] + rest && runs == [s[i..j]] + restRuns;
      assert pieces[1..] == rest && runs[1..] == restRuns;
      SkipSpacesAreSpaces(s, i);
      RunBlank(s, i, j);
      SliceThree(s, start, i, j);
      assert forall k :: 0 < k < |runs| ==> runs[k] == restRuns[k - 1];
    }
  }

  /** The characters of `s` that are not white space, in order. */
  function RemoveSpaces(s: string): string {
    if s == [] then [] else (if IsSpace(s[0]) then [] else [s[0]]) + RemoveSpaces(s[1..])
  }

  function Concat(parts: seq<string>): string {
    if parts == [] then [] else parts[0] + Concat(parts[1..])
  }

  lemma {:induction false} RemoveSpacesAppend(a: string, b: string)
    ensures RemoveSpaces(a + b) == RemoveSpaces(a) + RemoveSpaces(b)
  {
    if a != [] {
      assert (a + b)[1..] == a[1..] + b;
      RemoveSpacesAppend(a[1..], b);
    } else {
      assert a + b == b;
    }
  }

  lemma {:induction false} RemoveSpacesNoSpace(s: string)
    requires NoSpace(s)
    ensures RemoveSpaces(s) == s
  {
    if s != [] {
      RemoveSpacesNoSpace(s[1..]);
    }
  }

  lemma {:induction false} RemoveSpacesBlank(s: string)
    requires IsBlank(s)
    ensures RemoveSpaces(s) == []
  {
    if s != [] {
      RemoveSpacesBlank(s[1..]);
    }
  }

  lemma SliceThree(s: string, i: nat, j: nat, k: nat)
    requires i <= j <= k <= |s|
    ensures s[i..] == s[i..j] + s[j..k] + s[k..]
  {
  }

  /** The pieces of `split(/\s+/)` hold exactly the non-space characters of `s`, in order. */
  lemma SplitWsKeepsNonSpace(s: string)
    ensures Concat(SplitWs(s)) == RemoveSpaces(s)
  {
    SplitWsFromKeepsNonSpace(s, 0);
    assert s[0..] == s;
  }

  lemma {:induction false} SplitWsFromKeepsNonSpace(s: string, start: nat)
    requires start <= |s|
    ensures Concat(SplitWsFrom(s, start)) == RemoveSpaces(s[start..])
    decreases |s| - start
  {
    var i := SkipNonSpaces(s, start);
    SkipNonSpacesAreNotSpaces(s, start);
    if i == |s| {
      PieceNoSpace(s, start, |s|);
      assert s[start..|s|] == s[start..];
      RemoveSpacesNoSpace(s[start..]);
      assert Concat([s[start..]]) == s[start..] + Concat([]);
    } else {
      var j := SkipSpaces(s, i);
      var rest := SplitWsFrom(s, j);
      SplitWsFromKeepsNonSpace(s, j);
      assert SplitWsFrom(s, start) == [s[start..i]] + rest;
      assert ([s[start..i]] + rest)[1..] == rest;
      PieceNoSpace(s, start, i);
      SkipSpacesAreSpaces(s, i);
      RunBlank(s, i, j);
      SliceThree(s, start, i, j);
      RemoveSpacesThree(s[start..i], s[i..j], s[j..]);
    }
  }

  lemma PieceNoSpace(s: string, lo: nat, hi: nat)
    requires lo <= hi <= |s| && NoSpacesIn(s, lo, hi)
    ensures NoSpace(s[lo..hi])
  {
    forall n | 0 <= n < hi - lo ensures !IsSpace(s[lo..hi][n]) {
      assert s[lo..hi][n] == s[lo + n];
    }
  }

  lemma PieceNoUpper(s: string, lo: nat, hi: nat)
    requires lo <= hi <= |s|
    ensures NoUpper(s) ==> NoUpper(s[lo..hi])
  {
    if NoUpper(s) {
      forall n | 0 <= n < hi - lo ensures !IsUpperAscii(s[lo..hi][n]) {
        assert s[lo..hi][n] == s[lo + n];
      }
    }
  }

  lemma RunBlank(s: string, lo: nat, hi: nat)
    requires lo <= hi <= |s| && SpacesIn(s, lo, hi)
    ensures IsBlank(s[lo..hi])
  {
    forall n | 0 <= n < hi - lo ensures IsSpace(s[lo..hi][n]) {
      assert s[lo..hi][n] == s[lo + n];
    }
  }

  /** A word followed by white space keeps only the word. */
  lemma RemoveSpacesThree(a: string, b: string, c: string)
    requires NoSpace(a) && IsBlank(b)
    ensures RemoveSpaces(a + b + c) == a + RemoveSpaces(c)
  {
    RemoveSpacesNoSpace(a);
    RemoveSpacesBlank(b);
    RemoveSpacesAppend(a, b);
    RemoveSpacesAppend(a + b, c);
    assert a + [] == a;
  }

  // ---------------------------------------------------------------- split(' ')

  /** The number of occurrences of `c` in `s`. */
  function Count(s: string, c: char): nat {
    if s == [] then 0 else (if s[0] == c then 1 else 0) + Count(s[1..], c)
  }

  /** `s.split(sep)` for a one-character separator: every occurrence ends a piece, empty pieces included. */
  function SplitChar(s: string, sep: char): (r: seq<string>)
    ensures |r| == Count(s, sep) + 1
    ensures forall k :: 0 <= k < |r| ==> sep !in r[k]
  {
    if s == [] then [[]]
    else
      var rest := SplitChar(s[1..], sep);
      if s[0] == sep then [[]] + rest else [[s[0]] + rest[0]] + rest[1..]
  }

  /** `parts.join(sep)`. */
  function Join(parts: seq<string>, sep: char): string
    requires |parts| >= 1
  {
    if |parts| == 1 then parts[0] else parts[0] + [sep] + Join(parts[1..], sep)
  }

  /** Joining the pieces of `split(sep)` with `sep` gives back the string. */
  lemma {:induction false} JoinSplitChar(s: string, sep: char)
    ensures Join(SplitChar(s, sep), sep) == s
  {
    if s != [] {
      var rest := SplitChar(s[1..], sep);
      JoinSplitChar(s[1..], sep);
      if s[0] == sep {
        assert ([[]] + rest)[1..] == rest;
      } else if |rest| == 1 {
        assert s == [s[0]] + s[1..];
      } else {
        var r := [[s[0]] + rest[0]] + rest[1..];
        assert r[1..] == rest[1..];
        assert Join(rest, sep) == rest[0] + [sep] + Join(rest[1..], sep);
        assert s == [s[0]] + s[1..];
      }
    }
  }

  /** A string without the separator is one piece. */
  lemma {:induction false} SplitCharNoSep(s: string, sep: char)
    requires sep !in s
    ensures SplitChar(s, sep) == [s]
  {
    if s != [] {
      assert s[0] in s;
      assert forall c :: c in s[1..] ==> c in s;
      SplitCharNoSep(s[1..], sep);
      assert [s[0]] + s[1..] == s;
    }
  }

  /** A separator after a separator-free prefix ends the first piece. */
  lemma {:induction false} SplitCharAfterPiece(a: string, b: string, sep: char)
    requires sep !in a
    ensures SplitChar(a + [sep] + b, sep) == [a] + SplitChar(b, sep)
  {
    var s := a + [sep] + b;
    if a == [] {
      assert s == [sep] + b;
      assert s[1..] == b;
    } else {
      assert a[0] in a;
      assert forall c :: c in a[1..] ==> c in a;
      assert s[0] == a[0] && s[1..] == a[1..] + [sep] + b;
      SplitCharAfterPiece(a[1..], b, sep);
      assert [a[0]] + a[1..] == a;
    }
  }

  // ---------------------------------------------------------------- replace(/[^\w\s]/g, '')

  /** `w.replace(/[^\w\s]/g, '')`: drops every character that is neither a word character nor white space. */
  function StripNonWord(w: string): (r: string)
    ensures |r| <= |w|
    ensures forall i :: 0 <= i < |r| ==> IsWordChar(r[i]) || IsSpace(r[i])
    ensures (forall i :: 0 <= i < |w| ==> IsWordChar(w[i])) ==> r == w
  {
    if w == [] then []
    else
      var rest := StripNonWord(w[1..]);
      if IsWordChar(w[0]) || IsSpace(w[0]) then [w[0]] + rest else rest
  }

  /** Every character that survives the strip is a character of the word. */
  lemma {:induction false} StripNonWordFromWord(w: string)
    ensures forall i :: 0 <= i < |StripNonWord(w)| ==> StripNonWord(w)[i] in w
  {
    if w != [] {
      StripNonWordFromWord(w[1..]);
      assert forall c :: c in w[1..] ==> c in w;
    }
  }

  /** A word of lower-case ASCII letters comes through unchanged. */
  lemma StripNonWordLetters(w: string)
    requires forall n :: 0 <= n < |w| ==> 'a' <= w[n] <= 'z'
    ensures StripNonWord(w) == w
  {
  }

  /** A single character is kept exactly when it is a word character or white space. */
  lemma StripNonWordOne(c: char)
    ensures StripNonWord([c]) == if IsWordChar(c) || IsSpace(c) then [c] else []
  {
    assert [c][1..] == [];
  }

  /**
   * Stripping works character by character: together with `StripNonWordOne`,
   * the result is exactly the word and space characters of `w`, in order.
   */
  lemma {:induction false} StripNonWordAppend(a: string, b: string)
    ensures StripNonWord(a + b) == StripNonWord(a) + StripNonWord(b)
  {
    if a == [] {
      assert a + b == b;
    } else {
      assert (a + b)[1..] == a[1..] + b;
      StripNonWordAppend(a[1..], b);
    }
  }

  // ---------------------------------------------------------------- the bounds of the JSON match

  /** The first index at or after `i` that holds `c`, or `|s|`. */
  function IndexFrom(s: string, c: char, i: nat): (k: nat)
    requires i <= |s|
    ensures i <= k <= |s|
    ensures forall n :: i <= n < k ==> s[n] != c
    ensures k < |s| ==> s[k] == c
    decreases |s| - i
  {
    if i == |s| || s[i] == c then i else IndexFrom(s, c, i + 1)
  }

  /** The last index before `j` that holds `c`, or -1. */
  function LastIndexBefore(s: string, c: char, j: nat): (k: int)
    requires j <= |s|
    ensures -1 <= k < j
    ensures forall n :: k < n < j ==> s[n] != c
    ensures k >= 0 ==> s[k] == c
  {
    if j == 0 then -1 else if s[j - 1] == c then j - 1 else LastIndexBefore(s, c, j - 1)
  }

  /** The index of the first `c` in `s`, or `|s|` when there is none. */
  function FirstIndexOf(s: string, c: char): (i: nat)
    ensures i <= |s|
    ensures forall k :: 0 <= k < i ==> s[k] != c
    ensures i < |s| ==> s[i] == c
  {
    IndexFrom(s, c, 0)
  }

  /** The index of the last `c` in `s`, or -1 when there is none. */
  function LastIndexOf(s: string, c: char): (i: int)
    ensures -1 <= i < |s|
    ensures forall k :: i < k < |s| ==> s[k] != c
    ensures i >= 0 ==> s[i] == c
  {
    LastIndexBefore(s, c, |s|)
  }

  // ---------------------------------------------------------------- number to decimal text

  predicate IsDigit(c: char) {
    '0' <= c <= '9'
  }

  function DigitChar(d: nat): (c: char)
    requires d < 10
    ensures IsDigit(c)
  {
    ('0' as int + d) as char
  }

  /** A number written in a template string: its decimal digits, without leading zeros. */
  function NatToString(n: nat): (s: string)
    ensures |s| >= 1
    ensures forall i :: 0 <= i < |s| ==> IsDigit(s[i])
    ensures s[0] == '0' ==> n == 0
    decreases n
  {
    if n < 10 then [DigitChar(n)] else NatToString(n / 10) + [DigitChar(n % 10)]
  }

  function DigitValue(c: char): nat
    requires IsDigit(c)
  {
    c as int - '0' as int
  }

  /** The number a string of decimal digits denotes. */
  function DecimalValue(s: string): nat
    requires forall i :: 0 <= i < |s| ==> IsDigit(s[i])
  {
    if s == [] then 0 else DecimalValue(s[..|s| - 1]) * 10 + DigitValue(s[|s| - 1])
  }

  /** Reading back the decimal text of `n` gives `n`. */
  lemma {:induction false} NatToStringRoundTrip(n: nat)
    ensures DecimalValue(NatToString(n)) == n
    decreases n
  {
    var s := NatToString(n);
    if n >= 10 {
      NatToStringRoundTrip(n / 10);
      assert s[..|s| - 1] == NatToString(n / 10);
    }
  }
}

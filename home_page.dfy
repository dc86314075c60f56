/**
 * The search orchestration of the home page: `extractKeywords`, the ordered
 * fallback plan of `tryMultipleSearches`, and `handleSearch`, which puts the
 * refined query and keywords of the prompt analysis in front of that plan.
 * A movie search is an oracle `search` from a query to its result list (the
 * results of `searchMovies(query, omdbApiKey)`).
 */
module HomePage {
  import opened Wrappers
  import opened Text
  import opened OmdbService
  import opened GeminiService

  // ---------------------------------------------------------------- filtering

  /** `s[i..].filter(keep)`. */
  function Filter<T>(s: seq<T>, keep: T -> bool, i: nat): (r: seq<T>)
    requires i <= |s|
    ensures |r| <= |s| - i
    decreases |s| - i
  {
    if i == |s| then [] else (if keep(s[i]) then [s[i]] else []) + Filter(s, keep, i + 1)
  }

  /** What `Filter` keeps comes from `s[i..]` and is accepted by `keep`. */
  lemma {:induction false} FilterMembers<T>(s: seq<T>, keep: T -> bool, i: nat)
    requires i <= |s|
    ensures forall x :: x in Filter(s, keep, i) ==> x in s[i..] && keep(x)
    decreases |s| - i
  {
    if i < |s| {
      FilterMembers(s, keep, i + 1);
      assert s[i..] == [s[i]] + s[i + 1..];
    }
  }

  /** The indices of `s[i..]` whose element `keep` accepts, in increasing order. */
  ghost function KeptIndices<T>(s: seq<T>, keep: T -> bool, i: nat): seq<nat>
    requires i <= |s|
    decreases |s| - i
  {
    if i == |s| then [] else (if keep(s[i]) then [i] else []) + KeptIndices(s, keep, i + 1)
  }

  /**
   * `Filter` keeps exactly the accepted elements, in their original order: its
   * result is `s` read at the increasing list of accepted indices.
   */
  lemma {:induction false} FilterKeepsOrder<T>(s: seq<T>, keep: T -> bool, i: nat)
    requires i <= |s|
    ensures var r, idx := Filter(s, keep, i), KeptIndices(s, keep, i);
      |idx| == |r| &&
      (forall k :: 0 <= k < |idx| ==> i <= idx[k] < |s| && r[k] == s[idx[k]]) &&
      (forall k, l :: 0 <= k < l < |idx| ==> idx[k] < idx[l]) &&
      (forall n :: i <= n < |s| ==> (keep(s[n]) <==> n in idx))
    decreases |s| - i
  {
    if i < |s| {
      FilterKeepsOrder(s, keep, i + 1);
      var rest, restIdx := Filter(s, keep, i + 1), KeptIndices(s, keep, i + 1);
      var r, idx := Filter(s, keep, i), KeptIndices(s, keep, i);
      if keep(s[i]) {
        assert r == [s[i]] + rest && idx == [i] + restIdx;
        assert forall k :: 0 < k < |idx| ==> idx[k] == restIdx[k - 1] && r[k] == rest[k - 1];
      } else {
        assert r == rest && idx == restIdx;
      }
    }
  }

  // ---------------------------------------------------------------- extractKeywords

  const CommonWords: seq<string> :=
    ["a", "an", "the", "and", "but", "or", "in", "on", "at", "to", "for", "with", "like", "than"]

  /** The token filter: longer than two UTF-16 code units and not a stop word. */
  predicate IsMeaningful(word: string) {
    LongerThanTwoUnits(word) && word !in CommonWords
  }

  /** `words.map(word => word.replace(/[^\w\s]/g, ''))`. */
  function StripAll(words: seq<string>): (r: seq<string>)
    ensures |r| == |words|
    ensures forall k :: 0 <= k < |r| ==> r[k] == StripNonWord(words[k])
  {
    seq(|words|, k requires 0 <= k < |words| => StripNonWord(words[k]))
  }

  /** The whitespace tokens of the lower-cased query. */
  function Tokens(query: string): seq<string> {
    SplitWs(ToLower(query))
  }

  /** `extractKeywords(query)`: filter the tokens first, then strip their punctuation. */
  function ExtractKeywords(query: string): (keywords: seq<string>)
    ensures |keywords| <= |Tokens(query)|
  {
    StripAll(Filter(Tokens(query), IsMeaningful, 0))
  }

  /**
   * The keywords are the stripped meaningful tokens, in token order: every
   * meaningful token contributes one keyword and no other token does.
   */
  lemma KeywordsFollowTokens(query: string)
    ensures var tokens, keywords, idx := Tokens(query), ExtractKeywords(query), KeptIndices(Tokens(query), IsMeaningful, 0);
      |keywords| == |idx| &&
      (forall k :: 0 <= k < |idx| ==>
        idx[k] < |tokens| && IsMeaningful(tokens[idx[k]]) && keywords[k] == StripNonWord(tokens[idx[k]])) &&
      (forall k, l :: 0 <= k < l < |idx| ==> idx[k] < idx[l]) &&
      (forall n :: 0 <= n < |tokens| ==> (IsMeaningful(tokens[n]) <==> n in idx))
  {
    FilterKeepsOrder(Tokens(query), IsMeaningful, 0);
  }

  /** A keyword is made of lower-case word characters only. */
  lemma KeywordsAreLowerWordChars(query: string)
    ensures forall k :: 0 <= k < |ExtractKeywords(query)| ==>
      NoUpper(ExtractKeywords(query)[k]) &&
      forall n :: 0 <= n < |ExtractKeywords(query)[k]| ==> IsWordChar(ExtractKeywords(query)[k][n])
  {
    var tokens := Tokens(query);
    SplitWsPieces(ToLower(query));
    var meaningful := Filter(tokens, IsMeaningful, 0);
    FilterMembers(tokens, IsMeaningful, 0);
    assert tokens[0..] == tokens;
    forall k | 0 <= k < |ExtractKeywords(query)|
      ensures NoUpper(ExtractKeywords(query)[k])
      ensures forall n :: 0 <= n < |ExtractKeywords(query)[k]| ==> IsWordChar(ExtractKeywords(query)[k][n])
    {
      var w := meaningful[k];
      assert w in tokens;
      var j :| 0 <= j < |tokens| && tokens[j] == w;
      assert NoSpace(w) && NoUpper(w);
      var r := StripNonWord(w);
      StripNonWordFromWord(w);
      assert ExtractKeywords(query)[k] == r;
      forall n | 0 <= n < |r| ensures !IsUpperAscii(r[n]) && IsWordChar(r[n]) {
        var m :| 0 <= m < |w| && w[m] == r[n];
      }
    }
  }

  // ---------------------------------------------------------------- the candidate plan

  /** The single-keyword phase skips keywords shorter than three UTF-16 code units. */
  predicate IsLongKeyword(keyword: string) {
    LongerThanTwoUnits(keyword)
  }

  /** `keywords[i] + " " + keywords[j]` for `j` from `j0` to the end: one row of the pair phase. */
  function PairRow(keywords: seq<string>, i: nat, j0: nat): (row: seq<string>)
    requires i < j0 <= |keywords|
    ensures |row| == |keywords| - j0
    decreases |keywords| - j0
  {
    if j0 == |keywords| then [] else [keywords[i] + " " + keywords[j0]] + PairRow(keywords, i, j0 + 1)
  }

  /** The rows of the pair phase from row `i` on. */
  function PairsFrom(keywords: seq<string>, i: nat): seq<string>
    requires i <= |keywords|
    decreases |keywords| - i
  {
    if i == |keywords| then [] else PairRow(keywords, i, i + 1) + PairsFrom(keywords, i + 1)
  }

  /** The pair phase: every `keywords[i] + " " + keywords[j]` with `i < j`, when there are at least two keywords. */
  function PairPhase(keywords: seq<string>): seq<string> {
    if |keywords| >= 2 then PairsFrom(keywords, 0) else []
  }

  /** The reversed query, when `query.split(' ')` has exactly two parts. */
  function ReversedQuery(query: string): seq<string> {
    var words := SplitChar(query, ' ');
    if |words| == 2 then [words[1] + " " + words[0]] else []
  }

  /** The queries `tryMultipleSearches(query)` tries, in order. */
  function Candidates(query: string): seq<string> {
    var keywords := ExtractKeywords(query);
    [query] + Filter(keywords, IsLongKeyword, 0) + PairPhase(keywords) + ReversedQuery(query)
  }

  /** The candidate plan in the three parts `tryMultipleSearches` goes through. */
  lemma CandidatesParts(query: string)
    ensures var keywords := ExtractKeywords(query);
      Candidates(query) == [query] + Filter(keywords, IsLongKeyword, 0) + (PairPhase(keywords) + ReversedQuery(query))
  {
    var keywords := ExtractKeywords(query);
    var long, pairs, reversed := Filter(keywords, IsLongKeyword, 0), PairPhase(keywords), ReversedQuery(query);
    assert [query] + long + pairs + reversed == [query] + long + (pairs + reversed);
  }

  /** `0 + 1 + ... + (m - 1)`: the number of pairs among `m` keywords. */
  function Triangle(m: nat): nat {
    if m == 0 then 0 else (m - 1) + Triangle(m - 1)
  }

  lemma {:induction false} TriangleClosedForm(m: nat)
    ensures 2 * Triangle(m) == m * (m - 1)
  {
    if m > 0 {
      TriangleClosedForm(m - 1);
    }
  }

  lemma {:induction false} TriangleMonotone(a: nat, b: nat)
    requires a <= b
    ensures Triangle(a) <= Triangle(b)
    decreases b - a
  {
    if a < b {
      TriangleMonotone(a, b - 1);
    }
  }

  lemma {:induction false} PairsFromLength(keywords: seq<string>, i: nat)
    requires i <= |keywords|
    ensures |PairsFrom(keywords, i)| == Triangle(|keywords| - i)
    decreases |keywords| - i
  {
    if i < |keywords| {
      PairsFromLength(keywords, i + 1);
    }
  }

  /** The pair phase issues `n(n-1)/2` searches for `n` keywords, none when `n < 2`. */
  lemma PairPhaseCount(keywords: seq<string>)
    ensures 2 * |PairPhase(keywords)| == |keywords| * (|keywords| - 1)
  {
    var n := |keywords|;
    if n >= 2 {
      PairsFromLength(keywords, 0);
      TriangleClosedForm(n);
    }
  }

  /** Where the pair `(a, b)` sits in the pair phase of `n` keywords. */
  function PairIndex(n: nat, a: nat, b: nat): int
    requires a < b < n
  {
    Triangle(n) - Triangle(n - a) + (b - a - 1)
  }

  lemma {:induction false} PairRowAt(keywords: seq<string>, i: nat, j0: nat, b: nat)
    requires i < j0 <= b < |keywords|
    ensures PairRow(keywords, i, j0)[b - j0] == keywords[i] + " " + keywords[b]
    decreases b - j0
  {
    if j0 < b {
      PairRowAt(keywords, i, j0 + 1, b);
    }
  }

  lemma {:induction false} PairsFromAt(keywords: seq<string>, i: nat, a: nat, b: nat)
    requires i <= a < b < |keywords|
    ensures var n := |keywords|;
      0 <= Triangle(n - i) - Triangle(n - a) + (b - a - 1) < |PairsFrom(keywords, i)| &&
      PairsFrom(keywords, i)[Triangle(n - i) - Triangle(n - a) + (b - a - 1)] == keywords[a] + " " + keywords[b]
    decreases a - i
  {
    var n := |keywords|;
    PairsFromLength(keywords, i);
    var row := PairRow(keywords, i, i + 1);
    var rest := PairsFrom(keywords, i + 1);
    assert PairsFrom(keywords, i) == row + rest;
    if a == i {
      PairRowAt(keywords, i, i + 1, b);
      TriangleMonotone(n - a - 1, n - a);
    } else {
      PairsFromAt(keywords, i + 1, a, b);
      TriangleMonotone(n - a, n - i - 1);
    }
  }

  /** The pair of keywords `a < b` is searched as `keywords[a] + " " + keywords[b]` at `PairIndex`. */
  lemma PairPhaseAt(keywords: seq<string>, a: nat, b: nat)
    requires a < b < |keywords|
    ensures 0 <= PairIndex(|keywords|, a, b) < |PairPhase(keywords)|
    ensures PairPhase(keywords)[PairIndex(|keywords|, a, b)] == keywords[a] + " " + keywords[b]
  {
    PairsFromAt(keywords, 0, a, b);
  }

  /** Pairs are tried in lexicographic `(i, j)` order. */
  lemma PairIndexLexicographic(n: nat, a: nat, b: nat, c: nat, d: nat)
    requires a < b < n && c < d < n
    requires a < c || (a == c && b < d)
    ensures PairIndex(n, a, b) < PairIndex(n, c, d)
  {
    if a < c {
      assert Triangle(n - a) == (n - a - 1) + Triangle(n - a - 1);
      TriangleMonotone(n - c, n - a - 1);
    }
  }

  /** Reversal applies exactly to queries with one space, and reversing twice gives the query back. */
  lemma ReversedQueryInvolution(query: string)
    ensures |ReversedQuery(query)| <= 1
    ensures |ReversedQuery(query)| == 1 <==> Count(query, ' ') == 1
    ensures |ReversedQuery(query)| == 1 ==> ReversedQuery(ReversedQuery(query)[0]) == [query]
  {
    var words := SplitChar(query, ' ');
    if |words| == 2 {
      var w0, w1 := words[0], words[1];
      SplitCharNoSep(w0, ' ');
      SplitCharAfterPiece(w1, w0, ' ');
      assert w1 + " " + w0 == w1 + [' '] + w0;
      assert SplitChar(w1 + " " + w0, ' ') == [w1, w0];
      JoinSplitChar(query, ' ');
      assert Join(words, ' ') == w0 + [' '] + w1;
    }
  }

  /**
   * The plan is the query itself, then the long keywords, then the `n(n-1)/2`
   * pairs of the `n` keywords, then one reversal exactly when the query holds
   * a single space.
   */
  lemma CandidatesShape(query: string)
    ensures var cands, keywords := Candidates(query), ExtractKeywords(query);
      cands[0] == query &&
      2 * |cands| ==
        2 * (1 + |Filter(keywords, IsLongKeyword, 0)| + (if Count(query, ' ') == 1 then 1 else 0)) +
        |keywords| * (|keywords| - 1)
  {
    PairPhaseCount(ExtractKeywords(query));
    ReversedQueryInvolution(query);
  }

  // ---------------------------------------------------------------- first hit over a plan

  /** The results of the first candidate whose search is non-empty, else none. */
  function FirstHit(search: string -> seq<Movie>, cands: seq<string>): seq<Movie>
    decreases |cands|
  {
    if cands == [] then []
    else if search(cands[0]) != [] then search(cands[0])
    else FirstHit(search, cands[1..])
  }

  /** The candidates searched: up to and including the first hit, else all of them. */
  function Tried(search: string -> seq<Movie>, cands: seq<string>): (tried: seq<string>)
    ensures |tried| <= |cands|
    decreases |cands|
  {
    if cands == [] then []
    else if search(cands[0]) != [] then [cands[0]]
    else [cands[0]] + Tried(search, cands[1..])
  }

  /** Every search of `s` came back empty. */
  predicate AllMiss(search: string -> seq<Movie>, s: seq<string>)
    decreases |s|
  {
    s == [] || (search(s[0]) == [] && AllMiss(search, s[1..]))
  }

  lemma {:induction false} AllMissSnoc(search: string -> seq<Movie>, s: seq<string>, c: string)
    requires AllMiss(search, s) && search(c) == []
    ensures AllMiss(search, s + [c])
    decreases |s|
  {
    if s == [] {
      assert [] + [c] == [c] && [c][1..] == [];
    } else {
      AllMissSnoc(search, s[1..], c);
      assert (s + [c])[1..] == s[1..] + [c];
    }
  }

  /** The result is empty exactly when every candidate's search is empty. */
  lemma {:induction false} FirstHitEmptyIff(search: string -> seq<Movie>, cands: seq<string>)
    ensures FirstHit(search, cands) == [] <==> forall j :: 0 <= j < |cands| ==> search(cands[j]) == []
    decreases |cands|
  {
    if cands != [] && search(cands[0]) == [] {
      FirstHitEmptyIff(search, cands[1..]);
      assert forall j :: 0 < j < |cands| ==> cands[j] == cands[1..][j - 1];
    }
  }

  /**
   * Searching stops at the first hit: the searches made are a prefix of the
   * plan, all but the last came back empty, and the last gave the result.
   */
  lemma {:induction false} TriedStopsAtFirstHit(search: string -> seq<Movie>, cands: seq<string>)
    ensures var tried := Tried(search, cands);
      tried == cands[..|tried|] &&
      (forall j :: 0 <= j < |tried| - 1 ==> search(tried[j]) == []) &&
      (FirstHit(search, cands) != [] ==> tried != [] && search(tried[|tried| - 1]) == FirstHit(search, cands)) &&
      (FirstHit(search, cands) == [] ==> tried == cands)
    decreases |cands|
  {
    if cands != [] && search(cands[0]) == [] {
      var rest := Tried(search, cands[1..]);
      TriedStopsAtFirstHit(search, cands[1..]);
      var tried := [cands[0]] + rest;
      assert tried == cands[..|tried|];
      assert forall j :: 0 < j < |tried| ==> tried[j] == rest[j - 1];
      if FirstHit(search, cands) == [] {
        assert tried == [cands[0]] + cands[1..] == cands;
      }
    }
  }

  /** Nothing but misses. */
  lemma {:induction false} AllMissed(search: string -> seq<Movie>, cands: seq<string>)
    requires AllMiss(search, cands)
    ensures FirstHit(search, cands) == [] && Tried(search, cands) == cands
    decreases |cands|
  {
    if cands != [] {
      AllMissed(search, cands[1..]);
      assert [cands[0]] + cands[1..] == cands;
    }
  }

  /**
   * A plan made of two plans: the second is searched only when every search of
   * the first came back empty, and then it decides the result.
   */
  lemma {:induction false} FirstHitAppend(search: string -> seq<Movie>, a: seq<string>, b: seq<string>)
    ensures FirstHit(search, a) != [] ==>
      FirstHit(search, a + b) == FirstHit(search, a) && Tried(search, a + b) == Tried(search, a)
    ensures FirstHit(search, a) == [] ==>
      FirstHit(search, a + b) == FirstHit(search, b) && Tried(search, a + b) == a + Tried(search, b)
    decreases |a|
  {
    if a == [] {
      assert a + b == b;
    } else {
      assert (a + b)[0] == a[0] && (a + b)[1..] == a[1..] + b;
      if search(a[0]) == [] {
        FirstHitAppend(search, a[1..], b);
        assert [a[0]] + (a[1..] + Tried(search, b)) == a + Tried(search, b);
      }
    }
  }

  /** A hit right after a run of misses. */
  lemma HitAfterMisses(search: string -> seq<Movie>, cands: seq<string>, missed: seq<string>, c: string, later: seq<string>)
    requires cands == missed + ([c] + later) && AllMiss(search, missed) && search(c) != []
    ensures FirstHit(search, cands) == search(c)
    ensures Tried(search, cands) == missed + [c]
  {
    AllMissed(search, missed);
    FirstHitAppend(search, missed, [c] + later);
    assert ([c] + later)[0] == c;
  }

  // ---------------------------------------------------------------- tryMultipleSearches

  /** Partway through a plan: `issued` has been searched, each search came back empty, and `todo` remains. */
  predicate Progress(search: string -> seq<Movie>, cands: seq<string>, issued: seq<string>, todo: seq<string>) {
    cands == issued + todo && AllMiss(search, issued)
  }

  /** Nothing has been searched yet. */
  lemma Start(search: string -> seq<Movie>, cands: seq<string>)
    ensures Progress(search, cands, [], cands)
  {
    assert [] + cands == cands;
  }

  /** A miss moves the next candidate from the plan to the searched list. */
  lemma Advance(search: string -> seq<Movie>, cands: seq<string>, issued: seq<string>, c: string, rest: seq<string>, more: seq<string>)
    requires Progress(search, cands, issued, [c] + rest + more) && search(c) == []
    ensures Progress(search, cands, issued + [c], rest + more)
  {
    assert issued + ([c] + rest + more) == (issued + [c]) + (rest + more);
    AllMissSnoc(search, issued, c);
  }

  /** A hit on the next candidate decides the plan. */
  lemma Hit(search: string -> seq<Movie>, cands: seq<string>, issued: seq<string>, c: string, rest: seq<string>, more: seq<string>)
    requires Progress(search, cands, issued, [c] + rest + more) && search(c) != []
    ensures FirstHit(search, cands) == search(c) && Tried(search, cands) == issued + [c]
  {
    assert [c] + rest + more == [c] + (rest + more);
    HitAfterMisses(search, cands, issued, c, rest + more);
  }

  /** The plan is used up without a hit. */
  lemma Exhausted(search: string -> seq<Movie>, cands: seq<string>, issued: seq<string>)
    requires Progress(search, cands, issued, [])
    ensures FirstHit(search, cands) == [] && Tried(search, cands) == issued
  {
    assert cands == issued + [] == issued;
    AllMissed(search, cands);
  }

  lemma Regroup(search: string -> seq<Movie>, cands: seq<string>, issued: seq<string>, a: seq<string>, b: seq<string>, c: seq<string>)
    requires Progress(search, cands, issued, a + b + c)
    ensures Progress(search, cands, issued, a + (b + c))
  {
    assert a + b + c == a + (b + c);
  }

  /**
   * The keyword phase of `tryMultipleSearches`: each keyword of three or more
   * characters, searched in order. Either one hits and decides the plan, or
   * every search missed and the plan goes on with `more`.
   */
  method SearchLongKeywords(
    keywords: seq<string>, search: string -> seq<Movie>, ghost cands: seq<string>, issued0: seq<string>, ghost more: seq<string>)
    returns (results: seq<Movie>, issued: seq<string>)
    requires Progress(search, cands, issued0, Filter(keywords, IsLongKeyword, 0) + more)
    ensures results != [] ==> results == FirstHit(search, cands) && issued == Tried(search, cands)
    ensures results == [] ==> Progress(search, cands, issued, more)
  {
    issued := issued0;
    results := [];
    for k := 0 to |keywords|
      invariant results == []
      invariant Progress(search, cands, issued, Filter(keywords, IsLongKeyword, k) + more)
    {
      var keyword := keywords[k];
      LongerThanTwoUnitsIff(keyword);
      if Utf16Length(keyword) < 3 {
        assert Filter(keywords, IsLongKeyword, k) == Filter(keywords, IsLongKeyword, k + 1);
        continue;
      }
      assert Filter(keywords, IsLongKeyword, k) == [keyword] + Filter(keywords, IsLongKeyword, k + 1);
      results := search(keyword);
      if |results| > 0 {
        Hit(search, cands, issued, keyword, Filter(keywords, IsLongKeyword, k + 1), more);
        return results, issued + [keyword];
      }
      Advance(search, cands, issued, keyword, Filter(keywords, IsLongKeyword, k + 1), more);
      issued := issued + [keyword];
    }
  }

  /**
   * The pair phase of `tryMultipleSearches`: each keyword joined with every
   * later one, searched in order. Either a pair hits and decides the plan, or
   * every pair missed and the plan goes on with `more`.
   */
  method SearchPairs(
    keywords: seq<string>, search: string -> seq<Movie>, ghost cands: seq<string>, issued0: seq<string>, ghost more: seq<string>)
    returns (results: seq<Movie>, issued: seq<string>)
    requires Progress(search, cands, issued0, PairPhase(keywords) + more)
    ensures results != [] ==> results == FirstHit(search, cands) && issued == Tried(search, cands)
    ensures results == [] ==> Progress(search, cands, issued, more)
  {
    issued := issued0;
    results := [];
    if |keywords| >= 2 {
      for i := 0 to |keywords|
        invariant results == []
        invariant Progress(search, cands, issued, PairsFrom(keywords, i) + more)
      {
        Regroup(search, cands, issued, PairRow(keywords, i, i + 1), PairsFrom(keywords, i + 1), more);
        for j := i + 1 to |keywords|
          invariant results == []
          invariant Progress(search, cands, issued, PairRow(keywords, i, j) + (PairsFrom(keywords, i + 1) + more))
        {
          var keywordPair := keywords[i] + " " + keywords[j];
          results := search(keywordPair);
          if |results| > 0 {
            Hit(search, cands, issued, keywordPair, PairRow(keywords, i, j + 1), PairsFrom(keywords, i + 1) + more);
            return results, issued + [keywordPair];
          }
          Advance(search, cands, issued, keywordPair, PairRow(keywords, i, j + 1), PairsFrom(keywords, i + 1) + more);
          issued := issued + [keywordPair];
        }
      }
      assert PairsFrom(keywords, |keywords|) + more == more;
    } else {
      assert PairPhase(keywords) + more == more;
    }
  }

  /**
   * `tryMultipleSearches(query)`: the results of the first candidate with a
   * non-empty search, and the queries searched, in order.
   */
  method TryMultipleSearches(query: string, search: string -> seq<Movie>) returns (results: seq<Movie>, issued: seq<string>)
    ensures results == FirstHit(search, Candidates(query))
    ensures issued == Tried(search, Candidates(query))
  {
    var keywords := ExtractKeywords(query);
    ghost var reversed := ReversedQuery(query);
    ghost var later := PairPhase(keywords) + reversed;
    ghost var cands := [query] + Filter(keywords, IsLongKeyword, 0) + later;
    CandidatesParts(query);
    issued := [];
    Start(search, cands);

    results := search(query);
    if |results| > 0 {
      Hit(search, cands, issued, query, Filter(keywords, IsLongKeyword, 0), later);
      return results, [query];
    }
    Advance(search, cands, issued, query, Filter(keywords, IsLongKeyword, 0), later);
    issued := [query];

    var keywordResults;
    keywordResults, issued := SearchLongKeywords(keywords, search, cands, issued, later);
    if |keywordResults| > 0 {
      return keywordResults, issued;
    }

    var pairResults;
    pairResults, issued := SearchPairs(keywords, search, cands, issued, reversed);
    if |pairResults| > 0 {
      return pairResults, issued;
    }

    var words := SplitChar(query, ' ');
    if |words| == 2 {
      var reversedQuery := words[1] + " " + words[0];
      assert reversed == [reversedQuery] + [] + [];
      results := search(reversedQuery);
      if |results| > 0 {
        Hit(search, cands, issued, reversedQuery, [], []);
        return results, issued + [reversedQuery];
      }
      Advance(search, cands, issued, reversedQuery, [], []);
      issued := issued + [reversedQuery];
    }

    Exhausted(search, cands, issued);
    results := [];
  }

  // ---------------------------------------------------------------- handleSearch

  /** The searches a successful analysis adds in front: its refined query, then its keywords. */
  function AnalysisQueries(analysis: GeminiResponse): seq<string> {
    match analysis
    case Failure(_) => []
    case Success(data) =>
      [data.searchQuery] + (if data.keywords.Some? && |data.keywords.value| > 0 then data.keywords.value else [])
  }

  /** Everything `handleSearch(query)` may search, in order. */
  function SearchPlan(query: string, analysis: GeminiResponse): seq<string> {
    AnalysisQueries(analysis) + Candidates(query)
  }

  /**
   * In a plan `first + fallback`, the fallback is searched only when every
   * search of `first` came back empty, and it then decides the result.
   */
  lemma FallbackOnlyAfterMisses(search: string -> seq<Movie>, first: seq<string>, fallback: seq<string>)
    ensures |Tried(search, first + fallback)| > |first| ==> forall t :: 0 <= t < |first| ==> search(first[t]) == []
    ensures FirstHit(search, first) == [] ==> FirstHit(search, first + fallback) == FirstHit(search, fallback)
  {
    FirstHitAppend(search, first, fallback);
    FirstHitEmptyIff(search, first);
  }

  /**
   * The local fallback runs only when every search suggested by the analysis
   * came back empty or the analysis failed, and it then decides the result.
   */
  lemma FallbackOnlyAfterAnalysisMisses(query: string, analysis: GeminiResponse, search: string -> seq<Movie>)
    ensures var plan, first := SearchPlan(query, analysis), AnalysisQueries(analysis);
      (|Tried(search, plan)| > |first| ==> forall t :: 0 <= t < |first| ==> search(first[t]) == []) &&
      (FirstHit(search, first) == [] ==> FirstHit(search, plan) == FirstHit(search, Candidates(query))) &&
      (analysis.Failure? ==> plan == Candidates(query))
  {
    var first, fallback := AnalysisQueries(analysis), Candidates(query);
    FallbackOnlyAfterMisses(search, first, fallback);
    if analysis.Failure? {
      assert first + fallback == fallback;
    }
  }

  /** Once every search in front of the fallback missed, the fallback decides. */
  lemma FallbackAfterMisses(search: string -> seq<Movie>, plan: seq<string>, issued: seq<string>, fallback: seq<string>)
    requires Progress(search, plan, issued, fallback)
    ensures FirstHit(search, plan) == FirstHit(search, fallback)
    ensures Tried(search, plan) == issued + Tried(search, fallback)
  {
    AllMissed(search, issued);
    FirstHitAppend(search, issued, fallback);
  }

  /**
   * Searches each query of `queries` in order. Either one hits and decides the
   * plan, or every search missed and the plan goes on with `more`.
   */
  method SearchEach(
    queries: seq<string>, search: string -> seq<Movie>, ghost cands: seq<string>, issued0: seq<string>, ghost more: seq<string>)
    returns (results: seq<Movie>, issued: seq<string>)
    requires Progress(search, cands, issued0, queries + more)
    ensures results != [] ==> results == FirstHit(search, cands) && issued == Tried(search, cands)
    ensures results == [] ==> Progress(search, cands, issued, more)
  {
    issued := issued0;
    results := [];
    assert queries[0..] == queries;
    for k := 0 to |queries|
      invariant results == []
      invariant Progress(search, cands, issued, queries[k..] + more)
    {
      var query := queries[k];
      assert queries[k..] == [query] + queries[k + 1..];
      results := search(query);
      if |results| > 0 {
        Hit(search, cands, issued, query, queries[k + 1..], more);
        return results, issued + [query];
      }
      Advance(search, cands, issued, query, queries[k + 1..], more);
      issued := issued + [query];
    }
    assert queries[|queries|..] + more == more;
  }

  /**
   * The searches a successful analysis suggests: its refined query, then each
   * of its keywords. Either one hits and decides the plan, or every search
   * missed (or the analysis failed) and the plan goes on with `more`.
   */
  method SearchAnalysisQueries(
    analysis: GeminiResponse, search: string -> seq<Movie>, ghost plan: seq<string>, ghost more: seq<string>)
    returns (results: seq<Movie>, issued: seq<string>)
    requires plan == AnalysisQueries(analysis) + more
    ensures results != [] ==> results == FirstHit(search, plan) && issued == Tried(search, plan)
    ensures results == [] ==> Progress(search, plan, issued, more)
  {
    issued := [];
    results := [];
    Start(search, plan);
    if analysis.Success? {
      var searchQuery := analysis.data.searchQuery;
      var keywords: seq<string> := [];
      if analysis.data.keywords.Some? && |analysis.data.keywords.value| > 0 {
        keywords := analysis.data.keywords.value;
      }
      assert AnalysisQueries(analysis) == [searchQuery] + keywords;
      results := search(searchQuery);
      if |results| > 0 {
        Hit(search, plan, issued, searchQuery, keywords, more);
        return results, [searchQuery];
      }
      Advance(search, plan, issued, searchQuery, keywords, more);
      issued := [searchQuery];
      results, issued := SearchEach(keywords, search, plan, issued, more);
    } else {
      assert AnalysisQueries(analysis) == [];
      assert plan == more;
    }
  }

  /**
   * The search part of `handleSearch(query)` once the analysis is known: the
   * refined query, then the analysis keywords, then `tryMultipleSearches(query)`,
   * stopping at the first non-empty result. `issued` lists the queries searched.
   */
  method SearchAfterAnalysis(query: string, analysis: GeminiResponse, search: string -> seq<Movie>)
    returns (found: seq<Movie>, issued: seq<string>)
    ensures found == FirstHit(search, SearchPlan(query, analysis))
    ensures issued == Tried(search, SearchPlan(query, analysis))
  {
    ghost var fallback := Candidates(query);
    ghost var plan := AnalysisQueries(analysis) + fallback;
    found, issued := SearchAnalysisQueries(analysis, search, plan, fallback);
    if |found| > 0 {
      return;
    }
    FallbackAfterMisses(search, plan, issued, fallback);
    var allResults, tried := TryMultipleSearches(query, search);
    found := allResults;
    issued := issued + tried;
  }

  /** The page state `handleSearch` drives: the movies shown, the loading flag and the term searched. */
  class HomePage {
    var movies: seq<Movie>
    var isLoading: bool
    var searchTerm: string

    constructor ()
      ensures movies == [] && !isLoading && searchTerm == []
    {
      movies := [];
      isLoading := false;
      searchTerm := [];
    }

    /**
     * `handleSearch(query)`: the displayed movies are the first non-empty
     * result over the analysis queries followed by the fallback plan, and the
     * loading flag ends cleared. `issued` lists the queries searched, in order.
     */
    method HandleSearch(
      query: string, geminiApiKey: string, fetch: string -> GeminiService.Reply, parse: string -> Option<ParsedObject>,
      search: string -> seq<Movie>)
      returns (issued: seq<string>)
      modifies this
      ensures searchTerm == query && !isLoading
      ensures movies == FirstHit(search, SearchPlan(query, Analyze(query, geminiApiKey, fetch, parse)))
      ensures issued == Tried(search, SearchPlan(query, Analyze(query, geminiApiKey, fetch, parse)))
    {
      isLoading := true;
      searchTerm := query;
      movies := [];

      var analysis, _ := AnalyzeMoviePrompt(query, geminiApiKey, fetch, parse);
      var found;
      found, issued := SearchAfterAnalysis(query, analysis, search);
      if |found| == 0 {
        isLoading := false;
        return;
      }
      movies := found;
      isLoading := false;
    }
  }
}

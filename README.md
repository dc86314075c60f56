# ScreenTop search core in Dafny

ScreenTop is a movie finder. The user types a free-text description. The home
page asks a Gemini model to turn it into a refined search query and keywords,
then searches the OMDb movie database. When that finds nothing, it falls back
to a fixed plan of local query rewrites. This project models that search core
and proves its ordering, short-circuit and error-reporting behaviour:

- `text.dfy` (module `Text`): the JavaScript string operations the core relies
  on. These are the `\s` and `\w` classes, `length` in UTF-16 code units,
  `toLowerCase` on ASCII, `trim`, `split(/\s+/)`, `split(' ')`,
  `replace(/[^\w\s]/g, '')`, the first `{` and last `}` that bound the match of
  `/(\{[\s\S]*\})/`, and writing a number in a template string.
- `omdb_service.dfy` (module `OmdbService`): `searchMovies` and
  `getMovieDetails`. Both are pure guard-and-classify functions over an oracle
  `fetch` from the request parameters to the reply.
- `gemini_service.dfy` (module `GeminiService`): `analyzeMoviePrompt`.
  - It is an imperative method whose `for` loop walks the three endpoints.
    It is proved equal to the specification function `Analyze`, together with
    the list of endpoints it requested.
  - The network is an oracle `fetch` from the URL to the reply.
  - `JSON.parse` is an oracle `parse` from text to an optional object.
- `home_page.dfy` (module `HomePage`): the home page's search logic.
  - `extractKeywords` is a function.
  - `tryMultipleSearches` is a method whose loops follow the source. Its phases
    are the methods `SearchLongKeywords` and `SearchPairs`.
  - `handleSearch` is a method of the class `HomePage`, which holds the
    `movies`, `isLoading` and `searchTerm` state.
  - A movie search is an oracle `search` from a query to its result list. It
    stands for `searchMovies(query, omdbApiKey).results`.
  - Every search method returns the queries it issued, in order. Its contract
    ties results and issued queries to `FirstHit` and `Tried` over the
    candidate plan.
- `keyword_examples.dfy` (module `KeywordExamples`): worked examples of
  `extractKeywords` on concrete queries.
- `api_key_context.dfy` (module `ApiKeyContext`): the credential store, as the
  class `ApiKeyStore`. It has the two keys and the browser's local storage as
  a map.
- `wrappers.dfy`: the `Option` type, which stands for `null`, `undefined` and
  absent fields.

## Model

| member | source | states |
|---|---|---|
| Text.ToLower | src/pages/HomePage.tsx:18 | same length; each ASCII capital is lowered and every other character kept; the result has no ASCII capital |
| Text.SplitWsPieces | src/pages/HomePage.tsx:18 | the pieces of `split(/\s+/)` contain no white space; only the first and last can be empty; a string without capitals gives pieces without capitals |
| Text.SplitWsKeepsNonSpace | src/pages/HomePage.tsx:18 | concatenating the pieces of `split(/\s+/)` gives exactly the non-space characters of the string, in order |
| Text.SplitWsInterleaves | src/pages/HomePage.tsx:18 | the string is its `split(/\s+/)` pieces separated by non-empty white-space runs; since no piece holds white space, the cuts are exactly the maximal runs |
| Text.StripNonWord | src/pages/HomePage.tsx:23 | the result is no longer than the word and holds only word or space characters; a word of word characters comes back unchanged |
| Text.StripNonWordFromWord | src/pages/HomePage.tsx:23 | every character that survives the strip is a character of the word |
| Text.StripNonWordOne | src/pages/HomePage.tsx:23 | a single character is kept exactly when it is a word character or white space |
| Text.StripNonWordAppend | src/pages/HomePage.tsx:23 | the strip works character by character: stripping a concatenation concatenates the stripped parts, so with `StripNonWordOne` the result is exactly the word and space characters, in order |
| Text.Utf16Length | src/pages/HomePage.tsx:22 | `length` counts UTF-16 code units: at least one and at most two per character |
| Text.LongerThanTwoUnitsIff | src/pages/HomePage.tsx:22 | the test used for `length > 2` holds exactly when the UTF-16 length exceeds two |
| Text.NonBmpCountsTwo | src/pages/HomePage.tsx:22 | a character outside the Basic Multilingual Plane counts two: `"x😀".length` is 3 |
| Text.SplitChar | src/pages/HomePage.tsx:69 | `split(' ')` gives one more piece than there are spaces, and no piece contains a space |
| Text.JoinSplitChar | src/pages/HomePage.tsx:69 | joining the pieces of `split(sep)` with `sep` gives the string back |
| Text.TrimEmptyIffBlank | src/services/omdbService.ts:35 | `trim()` is empty exactly when the string is all white space |
| Text.TrimSlice | src/services/omdbService.ts:41 | a non-blank string trims to the slice between its blank prefix and blank suffix, which starts and ends with a non-space |
| Text.TrimPadded | src/services/omdbService.ts:41 | white space added on both sides does not change `trim()` |
| Text.FirstIndexOf | src/services/geminiService.ts:95 | the index of the first `c`, or the length when there is none, with no `c` before it; with `c` = `{` it is where the regex match starts |
| Text.LastIndexOf | src/services/geminiService.ts:95 | the index of the last `c`, or -1 when there is none, with no `c` after it; with `c` = `}` it is where the regex match ends |
| Text.NatToStringRoundTrip | src/services/geminiService.ts:79 | the decimal text of a status number reads back as that number |
| OmdbService.SearchMovies | src/services/omdbService.ts:32-76 | a request is sent exactly when the query is not blank, and it carries the trimmed query, the key and `r=json`; a blank query, a thrown error, a non-ok status or `Response: "False"` give no results; otherwise the results are the payload's `Search` list |
| OmdbService.SearchHitComesFromReply | src/services/omdbService.ts:54-71 | a non-empty result comes from an ok reply to the trimmed query that did not report `"False"`, and is its `Search` list |
| OmdbService.SearchIgnoresSurroundingSpace | src/services/omdbService.ts:35-45 | padding the query with white space on both sides changes neither the request nor the result |
| OmdbService.GetMovieDetails | src/services/omdbService.ts:79-119 | a request is sent exactly when the id is not blank, with the id untrimmed, `plot=full`, the key and `r=json`; the record is returned exactly when the reply is ok and does not report `"False"`; otherwise the result is `null` |
| GeminiService.JsonSpanFoundIff | src/services/geminiService.ts:95-97 | `/(\{[\s\S]*\})/` matches exactly when some `}` comes after some `{` |
| GeminiService.JsonSpanShape | src/services/geminiService.ts:95 | the match runs from the first `{` of the text to its last `}`: it starts with `{` and ends with `}`, no `{` comes before it, no `}` after it, and the text is prefix + match + suffix |
| GeminiService.Classify | src/services/geminiService.ts:68-126 | an endpoint passes exactly when the reply is ok with non-empty text whose brace span parses to an object with a non-empty `searchQuery`, and the analysis is that object; otherwise `lastError` is the thrown value, or an `Error` whose message is the status message, "Unexpected API response format", "Could not find valid JSON in response", "Failed to parse JSON from response" or "Missing required 'searchQuery' field in response", by the first check that failed |
| GeminiService.FailureNamesLastCheck | src/services/geminiService.ts:64-135 | with valid arguments, a failure names the check the last endpoint failed, for instance "Could not find valid JSON in response" when its text holds no brace span, and "Failed to connect to Gemini API" when it threw a non-`Error` value |
| GeminiService.StatusMessageReadsBack | src/services/geminiService.ts:79 | a non-ok status reports the body's message when there is one, else `API error: ` followed by the status number |
| GeminiService.FirstPass | src/services/geminiService.ts:64-127 | the first endpoint at or after `i` that passes: every endpoint before it fails |
| GeminiService.AnalyzeMoviePrompt | src/services/geminiService.ts:22-136 | the loop's result is `Analyze` (argument errors, then the first passing endpoint, else the last error) and it requests exactly the endpoints in `Attempted` |
| GeminiService.ArgumentChecks | src/services/geminiService.ts:23-35 | an empty key fails with "Missing API key" before the prompt is looked at; a blank prompt fails with "Please enter a movie description"; no endpoint is requested exactly in those two cases |
| GeminiService.AttemptsFollowEndpointOrder | src/services/geminiService.ts:64-127 | the requests are a prefix of the endpoint list, so there are at most three, in the listed order |
| GeminiService.SuccessIsFirstPass | src/services/geminiService.ts:97-113 | a success comes from the last endpoint requested, which passed after all earlier ones failed, and its `searchQuery` is non-empty |
| GeminiService.FailureReportsLastError | src/services/geminiService.ts:129-135 | with valid arguments, a failure means all three endpoints were requested and failed, and the message is the last endpoint's `Error` message, else "Failed to connect to Gemini API" |
| HomePage.Filter | src/pages/HomePage.tsx:22 | `filter` returns no more elements than it is given |
| HomePage.FilterMembers | src/pages/HomePage.tsx:22 | every element `filter` keeps comes from the list and passes the test |
| HomePage.FilterKeepsOrder | src/pages/HomePage.tsx:21-22 | `filter` returns the list read at the increasing indices of exactly the elements that pass |
| HomePage.ExtractKeywords | src/pages/HomePage.tsx:16-24 | there are no more keywords than whitespace tokens of the lower-cased query |
| HomePage.KeywordsFollowTokens | src/pages/HomePage.tsx:18-23 | the keywords are the tokens longer than two UTF-16 code units that are not stop words, in token order, each with its punctuation removed |
| HomePage.KeywordsAreLowerWordChars | src/pages/HomePage.tsx:18-23 | every keyword consists of lower-case word characters only |
| KeywordExamples.StopWordsDropped | src/pages/HomePage.tsx:16-24 | `extractKeywords("Interstellar but funnier")` is `["interstellar", "funnier"]` |
| KeywordExamples.FilterBeforeStrip | src/pages/HomePage.tsx:16-24 | the length filter sees the token before stripping: `extractKeywords("ab! xy")` is `["ab"]` |
| KeywordExamples.NonBmpTokenIsMeaningful | src/pages/HomePage.tsx:22 | a token of two characters, one of them an emoji, has length 3 and passes the filter |
| HomePage.PairRow | src/pages/HomePage.tsx:55-56 | one row of the pair phase has one pair per later keyword |
| HomePage.PairPhaseCount | src/pages/HomePage.tsx:53-65 | the pair phase has n(n-1)/2 candidates for n keywords, and none for fewer than two; the searches issued are at most these, since the phase stops at a hit |
| HomePage.PairPhaseAt | src/pages/HomePage.tsx:53-56 | every pair `keywords[a] + " " + keywords[b]` with a < b is in the pair phase, at position `PairIndex` |
| HomePage.PairIndexLexicographic | src/pages/HomePage.tsx:54-55 | pairs are tried in lexicographic (i, j) order |
| HomePage.ReversedQueryInvolution | src/pages/HomePage.tsx:69-71 | the reversal is tried exactly when the query holds one space, and reversing the reversal gives the query back |
| HomePage.CandidatesShape | src/pages/HomePage.tsx:27-79 | the plan starts with the raw query and has 1 + long keywords + n(n-1)/2 + (one if the query holds a single space) entries |
| HomePage.Tried | src/pages/HomePage.tsx:27-83 | no more searches are issued than there are candidates |
| HomePage.FirstHitEmptyIff | src/pages/HomePage.tsx:81-82 | the result is empty exactly when every candidate's search is empty |
| HomePage.TriedStopsAtFirstHit | src/pages/HomePage.tsx:32-78 | the searches issued are a prefix of the plan; all but the last came back empty; the last gave the result; with no hit, the whole plan was searched |
| HomePage.FirstHitAppend | src/pages/HomePage.tsx:120-124 | in a plan made of two plans, the second is searched only after every search of the first missed, and then decides the result |
| HomePage.SearchLongKeywords | src/pages/HomePage.tsx:40-50 | each keyword of three or more UTF-16 code units is searched in order; a hit decides the plan, else the plan continues after this phase |
| HomePage.SearchPairs | src/pages/HomePage.tsx:52-66 | each pair is searched in order; a hit decides the plan, else the plan continues after this phase |
| HomePage.TryMultipleSearches | src/pages/HomePage.tsx:27-83 | returns the results of the first candidate with a non-empty search, else none, and issues exactly the searches up to that candidate |
| HomePage.SearchEach | src/pages/HomePage.tsx:109-116 | each analysis keyword is searched in order; a hit decides the plan, else the plan continues after this phase |
| HomePage.SearchAnalysisQueries | src/pages/HomePage.tsx:95-118 | after a successful analysis the refined query and then its keywords are searched; a hit decides the plan, else the fallback follows |
| HomePage.FallbackOnlyAfterMisses | src/pages/HomePage.tsx:120-124 | the fallback is searched only when every earlier search missed, and it then decides the result |
| HomePage.FallbackOnlyAfterAnalysisMisses | src/pages/HomePage.tsx:94-124 | `tryMultipleSearches` runs only after the refined query and every analysis keyword missed, or when the analysis failed, and then its result is displayed |
| HomePage.FallbackAfterMisses | src/pages/HomePage.tsx:124-132 | once everything in front of the fallback missed, the fallback decides the result and the searches |
| HomePage.SearchAfterAnalysis | src/pages/HomePage.tsx:92-132 | the movies found are the first non-empty result over the analysis queries and then the fallback plan, and the searches issued stop there |
| HomePage.HomePage.constructor | src/pages/HomePage.tsx:10-12 | no movies, not loading, empty search term |
| HomePage.HomePage.HandleSearch | src/pages/HomePage.tsx:85-139 | records the search term, displays the first non-empty result of the analysis queries followed by the fallback plan (else nothing), issues exactly the searches up to it, and ends not loading |
| ApiKeyContext.GetItemAfterSetItem | src/contexts/ApiKeyContext.tsx:20-34 | an item read back after `setItem` is the value written, and every other item reads as before |
| ApiKeyContext.LoadedKeyIgnoresCurrent | src/contexts/ApiKeyContext.tsx:23-24 | a truthy saved value decides the key whatever the key was; otherwise the key is kept |
| ApiKeyContext.LoadedKeyIdempotent | src/contexts/ApiKeyContext.tsx:18-25 | loading twice from the same storage gives the same key as loading once |
| ApiKeyContext.LoadedKeyStaysSet | src/contexts/ApiKeyContext.tsx:23-24 | loading never empties a key that is set |
| ApiKeyContext.LoadedKeyAfterSetItem | src/contexts/ApiKeyContext.tsx:20-34 | a value written with `setItem` and loaded back becomes the key when it is non-empty, else the key is kept |
| ApiKeyContext.ApiKeyStore.constructor | src/contexts/ApiKeyContext.tsx:15-16 | both keys start at their defaults, so they count as set |
| ApiKeyContext.ApiKeyStore.LoadFromStorage | src/contexts/ApiKeyContext.tsx:18-25 | each key takes its stored value when that value is non-empty; storage is not written; keys that were set stay set |
| ApiKeyContext.ApiKeyStore.SetGeminiApiKey | src/contexts/ApiKeyContext.tsx:27-30 | the Gemini key becomes `key`, with no validation, and is written under "geminiApiKey"; the OMDb key and its storage item are unchanged |
| ApiKeyContext.ApiKeyStore.SetOmdbApiKey | src/contexts/ApiKeyContext.tsx:32-35 | the OMDb key becomes `key`, with no validation, and is written under "omdbApiKey"; the Gemini key and its storage item are unchanged |
| ApiKeyContext.SetThenReload | src/contexts/ApiKeyContext.tsx:18-37 | after setting both keys, they count as set exactly when both are non-empty; a reload restores each value that was set when it is non-empty and the default otherwise, so reloaded keys always count as set |

## Left out

- Network I/O. `fetch` and `response.json()` are oracles. An exception from
  either is the `Threw` reply. The request body and its `generationConfig`
  (prompt text, temperature, token limit) are not modelled.
- `JSON.parse` is an oracle from text to an optional object. An exception,
  including the one raised when the parsed value is `null`, is `None`.
  `searchQuery` and `keywords` of non-string or non-array type are not
  modelled.
- OmdbService.SearchMovies: an ok OMDb payload with no `Search` array (which
  makes the caller's `.length` throw) is not modelled. The payload's `Search`
  is always a list.
- HomePage.HomePage.HandleSearch: the `catch` branch is not modelled. In the
  model, neither client throws, so that branch cannot be reached.
- Toasts and `console` logging are not modelled; they have no behavioural
  content.
- The JSX rendering is not modelled.
- Two searches racing on the shared page state are not modelled.
- The home page's `search` oracle is `searchMovies(query, omdbApiKey)`. The
  OMDb key is fixed for the duration of one search.
- `toLowerCase` and `\w` are modelled on ASCII only. Other letters keep their
  case, and only `[A-Za-z0-9_]` are word characters. `\s` is the full
  JavaScript set of white space and line terminators.
- The built-in default keys are stand-in constants. Only their being non-empty
  matters to the model.
- The `useApiKeys` outside-provider error is not modelled. It is React
  plumbing.

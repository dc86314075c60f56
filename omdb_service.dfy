/**
 * The movie-metadata client: `searchMovies` and `getMovieDetails` guard
 * against a blank argument, issue at most one request, and fold every failure
 * (non-ok status, `Response: "False"`, a thrown error) into an empty or
 * absent result. The network is an oracle `fetch` from the request sent to
 * the reply received.
 */
module OmdbService {
  import opened Wrappers
  import opened Text

  const OmdbApiUrl := "https://www.omdbapi.com/"

  /** One search hit (`OmdbMovie`). */
  datatype Movie = Movie(imdbID: string, title: string, year: string, poster: string, kind: string)

  /** The detail record (`OmdbMovieDetails`), with the payload's `Response` field. */
  datatype MovieDetails = MovieDetails(
    movie: Movie, plot: string, genre: string, director: string, writer: string, actors: string,
    runtime: string, released: string, imdbRating: string, rated: string, language: string,
    country: string, awards: string, response: Option<string>)

  /** The parsed body of a search reply: its `Response` field and its `Search` array. */
  datatype SearchPayload = SearchPayload(response: Option<string>, search: seq<Movie>)

  /** What one request produced: an exception from `fetch` or `json()`, a non-ok status, or an ok body. */
  datatype Reply<P> = Threw | NotOk(status: nat) | Ok(payload: P)

  /** The query parameters of a search request: `s`, `apikey` and `r`. */
  datatype SearchParams = SearchParams(s: string, apikey: string, r: string)

  /** The query parameters of a detail request: `i`, `plot`, `apikey` and `r`. */
  datatype DetailParams = DetailParams(i: string, plot: string, apikey: string, r: string)

  /** The result list handed back, and the request that was sent, if any. */
  datatype SearchOutcome = SearchOutcome(results: seq<Movie>, request: Option<SearchParams>)

  /** The detail record handed back (`null` is `None`), and the request that was sent, if any. */
  datatype DetailsOutcome = DetailsOutcome(details: Option<MovieDetails>, request: Option<DetailParams>)

  /** The payload says there is nothing to return. */
  predicate ReportsFalse(response: Option<string>) {
    response == Some("False")
  }

  /** `searchMovies(query, apiKey)`. */
  function SearchMovies(query: string, apiKey: string, fetch: SearchParams -> Reply<SearchPayload>): (out: SearchOutcome)
    ensures out.request.None? <==> IsBlank(query)
    ensures IsBlank(query) ==> out.results == []
    ensures out.request.Some? ==> out.request.value == SearchParams(Trim(query), apiKey, "json")
    ensures out.request.Some? ==> Trim(query) != [] && !IsSpace(Trim(query)[0]) && !IsSpace(Trim(query)[|Trim(query)| - 1])
    ensures out.request.Some? ==>
      match fetch(out.request.value)
      case Ok(payload) => out.results == (if ReportsFalse(payload.response) then [] else payload.search)
      case _ => out.results == []
  {
    TrimEmptyIffBlank(query);
    if query == [] || Trim(query) == [] then
      SearchOutcome([], None)
    else
      TrimSlice(query);
      var params := SearchParams(Trim(query), apiKey, "json");
      var results :=
        match fetch(params)
        case Threw => []
        case NotOk(_) => []
        case Ok(data) => if data.response == Some("False") then [] else data.search;
      SearchOutcome(results, Some(params))
  }

  /** `getMovieDetails(imdbID, apiKey)`. */
  function GetMovieDetails(imdbID: string, apiKey: string, fetch: DetailParams -> Reply<MovieDetails>): (out: DetailsOutcome)
    ensures out.request.None? <==> IsBlank(imdbID)
    ensures IsBlank(imdbID) ==> out.details.None?
    ensures out.request.Some? ==> out.request.value == DetailParams(imdbID, "full", apiKey, "json")
    ensures out.details.Some? ==>
      out.request.Some? && fetch(out.request.value) == Ok(out.details.value) && !ReportsFalse(out.details.value.response)
    ensures out.request.Some? && fetch(out.request.value).Ok? && !ReportsFalse(fetch(out.request.value).payload.response) ==>
      out.details == Some(fetch(out.request.value).payload)
  {
    TrimEmptyIffBlank(imdbID);
    if imdbID == [] || Trim(imdbID) == [] then
      DetailsOutcome(None, None)
    else
      var params := DetailParams(imdbID, "full", apiKey, "json");
      var details :=
        match fetch(params)
        case Threw => None
        case NotOk(_) => None
        case Ok(data) => if data.response == Some("False") then None else Some(data);
      DetailsOutcome(details, Some(params))
  }

  /** A search hit is only ever taken from an ok reply to the trimmed query that did not report `"False"`. */
  lemma SearchHitComesFromReply(query: string, apiKey: string, fetch: SearchParams -> Reply<SearchPayload>)
    requires SearchMovies(query, apiKey, fetch).results != []
    ensures !IsBlank(query)
    ensures var reply := fetch(SearchParams(Trim(query), apiKey, "json"));
      reply.Ok? && !ReportsFalse(reply.payload.response) && SearchMovies(query, apiKey, fetch).results == reply.payload.search
  {
  }

  /** Surrounding white space does not change what is searched for. */
  lemma {:induction false} SearchIgnoresSurroundingSpace(query: string, pad: string, apiKey: string, fetch: SearchParams -> Reply<SearchPayload>)
    requires IsBlank(pad)
    ensures SearchMovies(pad + query + pad, apiKey, fetch) == SearchMovies(query, apiKey, fetch)
  {
    TrimPadded(query, pad);
    TrimEmptyIffBlank(query);
    TrimEmptyIffBlank(pad + query + pad);
  }
}

# wikiDBpediaParser term resolution, modelled in Dafny

`app.py` reads a list of free-text terms, looks each one up with the
Wikipedia title search, and sorts it into one of three outputs: an exact
match (its DBpedia ontology goes into the results mapping), a similar match
(a fuzzy score of at least 85, written as a line to the similar-terms list)
or not found. This project models that decision logic and proves its
properties:

- `normalize.dfy`, module `Normalize`: `normalize_term` as the same chain of
  five passes (lowercase, space to `_`, hyphen to `_`, delete `(`, delete `)`),
  and `terms_are_identical`. A character-by-character reference definition
  (`NormalizeEach`) is proved equal to the chain. The lemmas cover the
  output's alphabet, its length, idempotence and that identity is an
  equivalence.
- `resolver.dfy`, module `Resolver`: the selection loop of `search_wikipedia`
  as the method `SearchWikipedia`. It is proved against the specification
  function `Resolve`, which is built from `FirstIdentical` (the first
  identical title) and `BestFuzzy` (a running maximum with strict `>`,
  started at 0). The lemmas cover the exact-match short cut, the
  tie-break, the 85 threshold and the score range.
- `ontology.dfy`, module `Ontology`: `get_dbpedia_ontology`, meaning the
  SPARQL query built around the resource IRI of the normalized title and
  the status-200 test. It also holds `Truthy`, the Python truthiness that
  `main` applies to the fetched body (app.py:88).
- `pipeline.dfy`, module `Pipeline`: the loop of `main`. The class
  `SearchRun` holds the accumulators `results`, `similarTerms`,
  `notFoundTerms` and `foundCount`. `ProcessTerm` is one iteration and
  `SearchTerms` is the whole loop plus the statistics. Both are proved
  against `Classify` (one term's outcome), `Record` (one accumulator
  update) and `Accumulate`/`RunAll` (the fold over the term list).
- `wrappers.dfy`, module `Wrappers`: `Option`, which stands for Python's
  `None`.

The collaborators are parameters, bundled in `Pipeline.Services`:
- the Wikipedia search, `wikipedia(term)`: the result titles in service
  order, or `None` when the reply has no `query.search`;
- the DBpedia endpoint, `dbpedia(query)`: the HTTP status and the decoded
  body;
- `fuzz.ratio`, `ratio`;
- the `:.2f` rendering of a score, `format`.

Where the selection depends on `fuzz.ratio`, the lemmas assume
`ValidScorer`: scores lie in [0, 100], and a score is 100 only when the
two (already lowercased) strings are equal.

Where the code's behaviour may be unexpected, the model follows the code:
- An empty term list makes `found_count / total_terms` raise
  ZeroDivisionError (app.py:119). `PercentageFound` returns `None` for it
  rather than 0%.
- A fuzzy winner is accepted only when its title is non-empty
  (`if best_match`, app.py:38). A resolved title is used only when non-empty
  (`if wiki_title`, app.py:85). So an empty title always ends up not found.
- `main` tells the exact case from the similar case only by
  `similarity == 100` (app.py:86). `OutcomeMatchesIdentity` proves that under
  `ValidScorer` this agrees with identity.
- An ontology is kept only when the reply is 200 and the decoded body is
  truthy (`if ontology`, app.py:88). A failed fetch drops the term from all
  three outputs.

## Model

| member | source | states |
|---|---|---|
| Normalize.NormalizeOutput | app.py:8-9 | the normalized string contains no space, `-`, `(`, `)` or uppercase ASCII letter, and is never longer than the input |
| Normalize.NormalizeIsCharwise | app.py:9 | the five chained passes equal the character-by-character definition: `(` and `)` dropped, space and `-` become `_`, every other character lowercased and kept in order |
| Normalize.NormalizeAppend | app.py:9 | normalizing a concatenation is the concatenation of the normalized parts |
| Normalize.NormalizeFixesNormal | app.py:9 | a string with none of those characters passes through unchanged |
| Normalize.NormalizeIdempotent | app.py:8-9 | normalizing twice gives the same string as normalizing once |
| Normalize.IdenticalIsEquivalence | app.py:11-14 | identity is reflexive, symmetric and transitive |
| Normalize.IdenticalToNormalForm | app.py:11-14 | every term is identical to its own normal form |
| Normalize.SameLowerIdentical | app.py:8-14 | terms with equal lowercase forms are identical |
| Resolver.FirstIdentical | app.py:29-32 | the index found is of a title identical to the term with no identical title before it; None means no title is identical |
| Resolver.BestFuzzy | app.py:27-36 | the running best with strict `>` from 0 is the earliest index of the largest score, and that score is positive; None means every score is at most 0 |
| Resolver.SearchWikipedia | app.py:16-40 | the loop with its early return yields exactly `Resolve` of the search reply |
| Resolver.ExactMatchWins | app.py:29-32 | if any title is identical, the result is an identical title with score 100, and it comes no later than that title |
| Resolver.IgnoresTitlesAfterExact | app.py:29-32 | the result is the first identical title with score 100, whatever titles follow it |
| Resolver.FuzzyChoice | app.py:33-39 | without an identical title, a returned title is non-empty, scores at least 85, is a maximum, and scores strictly more than every earlier title |
| Resolver.FuzzyAccepted | app.py:33-39 | without an identical title, the earliest title with the largest score is returned with that score whenever it is non-empty and scores at least 85, the boundary 85 included |
| Resolver.NotFoundCases | app.py:26-40 | (None, 0) when `query.search` is missing, when the list is empty, or when no title is identical and all score below 85; a None title always comes with score 0 |
| Resolver.FullScoreIffIdentical | app.py:31-39 | with a valid scorer, a returned score lies in [85, 100], and it is 100 exactly when the returned title is identical to the term |
| Ontology.ResourceIriShape | app.py:43-47 | the resource IRI is `http://dbpedia.org/resource/` followed by a normal string no longer than the title |
| Ontology.SameQueryIffIdentical | app.py:43-50 | two titles produce the same SPARQL query exactly when they are identical terms |
| Ontology.IdenticalTitlesSameOntology | app.py:42-61 | the fetch depends on the title only through its normal form: identical titles fetch the same ontology (or both fail) |
| Pipeline.PercentageFound | app.py:119 | undefined exactly when there are no terms; otherwise percentage × total = found × 100, and the value lies in [0, 100] when found ≤ total |
| Pipeline.SearchRun.constructor | app.py:76-79 | the accumulators start empty and the found count at 0 |
| Pipeline.SearchRun.ProcessTerm | app.py:81-94 | one iteration updates the accumulators exactly as `Record` does with the term's `Classify` outcome |
| Pipeline.SearchTerms | app.py:73-94 | after the loop the accumulators equal `RunAll` of the terms, and the summary is computed from them |
| Pipeline.TallyCounts | app.py:79-94 | found + similar + not found + dropped = number of terms, and the results never have more keys than the found count |
| Pipeline.ResultsAreFound | app.py:88-90 | the keys of the results are exactly the terms recorded as found |
| Pipeline.ResultIsLastFound | app.py:89 | a key maps to the ontology of its last found occurrence |
| Pipeline.NotFoundInOrder | app.py:93-94 | not_found_terms lists, in input order, exactly the terms whose outcome is not found |
| Pipeline.SimilarInOrder | app.py:91-92 | similar_terms lists, in input order, the line of exactly each term whose outcome is similar |
| Pipeline.OutcomeMatchesIdentity | app.py:83-94 | with a valid scorer, found and dropped terms had an identical title, similar terms a non-identical one scoring in [85, 100), and not-found terms no usable title |
| Pipeline.SummaryFacts | app.py:114-119 | the three counts sum to at most the number of terms, with equality when no fetch failed; the percentage is undefined only for an empty list and otherwise lies in [0, 100] |

## Left out

- HTTP requests to Wikipedia and DBpedia, and JSON decoding (app.py:23-24, 55-58). The search and the endpoint are parameters, so they are network I/O outside the model. Each is a function of its request, so a repeated request is assumed to get the same answer.
- The shape of the search reply. `"query" in data and "search" in data["query"]` becomes the `None` case of the search parameter. A result without a `"title"` key (a KeyError) is not modelled.
- Exceptions that end the whole run. A KeyError, an exception from `requests.get`, or one from `response.json()` (for example a status-200 reply whose body is not JSON) stops `main` before any output file is written (app.py:97-111 come after the loop). The model's `SearchTerms` always completes.
- The internals of `rapidfuzz.fuzz.ratio`, a foreign library returning floats. It is the parameter `ratio` over `real`. `ValidScorer` is assumed of it, not proved.
- Reading `terms.txt` with `line.strip()`, writing the three output files and `json.dump` (app.py:64-71, 97-111). This is file I/O. The model starts from the stripped term list.
- All `print` output and the `:.2f` formatting (app.py:57, 60, 74, 82, 99, 105, 111, 114-119). This is presentation. The two-decimal rendering inside the similar-terms line is the parameter `format`.
- Unicode `str.lower()`. Lowercasing is modelled on ASCII letters only. So NormalizeOutput's length bound holds only for ASCII lowercasing: full Unicode case mapping can lengthen a string (`'İ'`, U+0130, becomes two code points). It can also change which terms are identical (the Kelvin sign, U+212A, becomes `k`).
- The SPARQL query beyond its text. The remote endpoint's evaluation of the query, including `LIMIT 50`, is outside the model.
- The order of the results mapping. A Python dict keeps insertion order, so `json.dump` writes the terms in the order each was first found; the model's `map` is unordered. No decision depends on this order.
- Pipeline.PercentageFound: Python float division and rounding are modelled as exact real arithmetic.

/**
 * The batch loop of main (app.py): every term is resolved, exact matches
 * have their ontology fetched, and each term lands in at most one of the
 * results mapping, the similar-terms list and the not-found list.  The
 * accumulators live in the class SearchRun; Classify, Record and RunAll
 * are the specification the methods are proved against.
 */
module Pipeline {
  import opened Wrappers
  import opened Normalize
  import opened Resolver
  import opened Ontology

  /**
   * The collaborators the run is given: the Wikipedia search, the DBpedia
   * SPARQL endpoint, fuzz.ratio and the two-decimal rendering of a score.
   */
  datatype Services = Services(
    wikipedia: string -> Option<seq<string>>,
    dbpedia: string -> DbResponse,
    ratio: (string, string) -> real,
    format: real -> string)

  /** What happens to one term. */
  datatype Outcome =
    | Found(ontology: Json)   // exact title, ontology loaded: goes to results
    | FetchFailed             // exact title, no ontology: dropped from every output
    | Similar(line: string)   // fuzzy title at 85 or above: goes to similar_terms
    | NotFound                // no title: goes to not_found_terms

  /** The accumulators of main. */
  datatype Tally = Tally(
    results: map<string, Json>,
    similarTerms: seq<string>,
    notFoundTerms: seq<string>,
    foundCount: nat)

  const EmptyTally: Tally := Tally(map[], [], [], 0)

  /** The line appended to similar_terms. */
  function SimilarLine(term: string, title: string, similarity: real, format: real -> string): string
  {
    term + " -> " + title + " (similarity: " + format(similarity) + "%)"
  }

  /**
   * The outcome of one term.  A title is accepted only when non-empty
   * (`if wiki_title:`), an exact match is recognised only by its score of
   * 100, and an ontology only when the reply is 200 and its body truthy.
   */
  function Classify(sv: Services, term: string): Outcome
  {
    var (title, similarity) := Resolve(sv.ratio, term, sv.wikipedia(term));
    if title.Some? && title.value != "" then
      if similarity == ExactScore then
        var ontology := GetDbpediaOntology(title.value, sv.dbpedia);
        if ontology.Some? && Truthy(ontology.value) then Found(ontology.value) else FetchFailed
      else Similar(SimilarLine(term, title.value, similarity, sv.format))
    else NotFound
  }

  /** The accumulators after one term with the given outcome. */
  function Record(t: Tally, term: string, o: Outcome): Tally
  {
    match o
    case Found(ontology) => t.(results := t.results[term := ontology], foundCount := t.foundCount + 1)
    case FetchFailed => t
    case Similar(line) => t.(similarTerms := t.similarTerms + [line])
    case NotFound => t.(notFoundTerms := t.notFoundTerms + [term])
  }

  /** The outcome of every term, in input order. */
  function Outcomes(sv: Services, terms: seq<string>): seq<Outcome>
  {
    seq(|terms|, i requires 0 <= i < |terms| => Classify(sv, terms[i]))
  }

  /** The accumulators after recording each term with its outcome, in order. */
  function Accumulate(terms: seq<string>, outcomes: seq<Outcome>): Tally
    requires |terms| == |outcomes|
  {
    if terms == [] then EmptyTally
    else
      var n := |terms| - 1;
      Record(Accumulate(terms[..n], outcomes[..n]), terms[n], outcomes[n])
  }

  /** The accumulators after the whole term list. */
  function RunAll(sv: Services, terms: seq<string>): Tally
  {
    Accumulate(terms, Outcomes(sv, terms))
  }

  /** The number of dropped terms (exact title, failed fetch). */
  function Dropped(outcomes: seq<Outcome>): (n: nat)
    ensures n <= |outcomes|
  {
    if outcomes == [] then 0
    else Dropped(outcomes[..|outcomes| - 1]) + (if outcomes[|outcomes| - 1].FetchFailed? then 1 else 0)
  }

  /** The statistics printed at the end of main. */
  datatype Summary = Summary(total: nat, found: nat, similar: nat, notFound: nat, percentage: Option<real>)

  /**
   * `found_count / total_terms * 100`: None stands for the
   * ZeroDivisionError raised on an empty term list.
   */
  function PercentageFound(found: nat, total: nat): (r: Option<real>)
    ensures r.None? <==> total == 0
    ensures r.Some? ==> r.value * (total as real) == (found as real) * 100.0
    ensures r.Some? && found <= total ==> 0.0 <= r.value <= 100.0
  {
    if total == 0 then None else Some((found as real) / (total as real) * 100.0)
  }

  function Summarize(t: Tally, total: nat): Summary
  {
    Summary(total, t.foundCount, |t.similarTerms|, |t.notFoundTerms|, PercentageFound(t.foundCount, total))
  }

  /** The run's accumulators, updated in place term by term. */
  class SearchRun {
    var results: map<string, Json>
    var similarTerms: seq<string>
    var notFoundTerms: seq<string>
    var foundCount: nat

    function State(): Tally
      reads this
    {
      Tally(results, similarTerms, notFoundTerms, foundCount)
    }

    constructor ()
      ensures State() == EmptyTally
    {
      results := map[];
      similarTerms := [];
      notFoundTerms := [];
      foundCount := 0;
    }

    /** One iteration of the loop of main. */
    method ProcessTerm(sv: Services, term: string)
      modifies this
      ensures State() == Record(old(State()), term, Classify(sv, term))
    {
      var wikiTitle, similarity := SearchWikipedia(term, sv.wikipedia, sv.ratio);
      if wikiTitle.Some? && wikiTitle.value != "" {
        if similarity == ExactScore {
          var ontology := GetDbpediaOntology(wikiTitle.value, sv.dbpedia);
          if ontology.Some? && Truthy(ontology.value) {
            results := results[term := ontology.value];
            foundCount := foundCount + 1;
          }
        } else {
          similarTerms := similarTerms + [SimilarLine(term, wikiTitle.value, similarity, sv.format)];
        }
      } else {
        notFoundTerms := notFoundTerms + [term];
      }
    }
  }

  /** main without its file I/O: process every term in order, then summarise. */
  method SearchTerms(sv: Services, terms: seq<string>) returns (run: SearchRun, summary: Summary)
    ensures fresh(run)
    ensures run.State() == RunAll(sv, terms)
    ensures summary == Summarize(RunAll(sv, terms), |terms|)
  {
    run := new SearchRun();
    var i := 0;
    while i < |terms|
      invariant 0 <= i <= |terms|
      invariant run.State() == Accumulate(terms[..i], Outcomes(sv, terms)[..i])
    {
      assert terms[..i + 1][..i] == terms[..i];
      assert Outcomes(sv, terms)[..i + 1][..i] == Outcomes(sv, terms)[..i];
      run.ProcessTerm(sv, terms[i]);
      i := i + 1;
    }
    assert terms[..i] == terms;
    assert Outcomes(sv, terms)[..i] == Outcomes(sv, terms);
    summary := Summarize(run.State(), |terms|);
  }

  /**
   * Every term is counted once: found, similar, not found or dropped; and
   * duplicate terms overwrite one key, so the results never outnumber
   * found_count.
   */
  lemma {:induction false} TallyCounts(terms: seq<string>, outcomes: seq<Outcome>)
    requires |terms| == |outcomes|
    ensures var t := Accumulate(terms, outcomes);
      t.foundCount + |t.similarTerms| + |t.notFoundTerms| + Dropped(outcomes) == |terms|
    ensures |Accumulate(terms, outcomes).results.Keys| <= Accumulate(terms, outcomes).foundCount
  {
    if terms != [] {
      var n := |terms| - 1;
      TallyCounts(terms[..n], outcomes[..n]);
      var t := Accumulate(terms[..n], outcomes[..n]);
      match outcomes[n]
      case Found(o) =>
        assert t.results[terms[n] := o].Keys == t.results.Keys + {terms[n]};
        assert |t.results.Keys + {terms[n]}| <= |t.results.Keys| + 1;
      case _ =>
    }
  }

  /** The results mapping holds exactly the terms recorded as Found. */
  lemma {:induction false} ResultsAreFound(terms: seq<string>, outcomes: seq<Outcome>)
    requires |terms| == |outcomes|
    ensures forall k :: k in Accumulate(terms, outcomes).results <==>
      exists j :: 0 <= j < |terms| && terms[j] == k && outcomes[j].Found?
  {
    if terms != [] {
      var n := |terms| - 1;
      ResultsAreFound(terms[..n], outcomes[..n]);
      assert forall j :: 0 <= j < n ==> terms[..n][j] == terms[j] && outcomes[..n][j] == outcomes[j];
    }
  }

  /**
   * A term in the results maps to the ontology of its last Found
   * occurrence: later occurrences overwrite earlier ones.
   */
  lemma {:induction false} ResultIsLastFound(terms: seq<string>, outcomes: seq<Outcome>, k: string) returns (j: nat)
    requires |terms| == |outcomes|
    requires k in Accumulate(terms, outcomes).results
    ensures j < |terms| && terms[j] == k
    ensures outcomes[j] == Found(Accumulate(terms, outcomes).results[k])
    ensures forall l :: j < l < |terms| && terms[l] == k ==> !outcomes[l].Found?
  {
    var n := |terms| - 1;
    if terms[n] == k && outcomes[n].Found? {
      j := n;
    } else {
      j := ResultIsLastFound(terms[..n], outcomes[..n], k);
      assert forall l :: 0 <= l < n ==> terms[..n][l] == terms[l] && outcomes[..n][l] == outcomes[l];
    }
  }

  /** `idx` lists positions below `n` in increasing order. */
  ghost predicate Ascending(idx: seq<nat>, n: nat)
  {
    (forall i :: 0 <= i < |idx| ==> idx[i] < n) &&
    (forall i, j :: 0 <= i < j < |idx| ==> idx[i] < idx[j])
  }

  /**
   * not_found_terms is the subsequence, in input order, of exactly the
   * terms recorded as NotFound.
   */
  lemma {:induction false} NotFoundInOrder(terms: seq<string>, outcomes: seq<Outcome>) returns (idx: seq<nat>)
    requires |terms| == |outcomes|
    ensures Ascending(idx, |terms|)
    ensures |idx| == |Accumulate(terms, outcomes).notFoundTerms|
    ensures forall i :: 0 <= i < |idx| ==>
      Accumulate(terms, outcomes).notFoundTerms[i] == terms[idx[i]] && outcomes[idx[i]].NotFound?
    ensures forall j :: 0 <= j < |terms| && outcomes[j].NotFound? ==> j in idx
  {
    if terms == [] {
      idx := [];
    } else {
      var n := |terms| - 1;
      var before := NotFoundInOrder(terms[..n], outcomes[..n]);
      assert forall j :: 0 <= j < n ==> terms[..n][j] == terms[j] && outcomes[..n][j] == outcomes[j];
      if outcomes[n].NotFound? {
        idx := before + [n];
      } else {
        idx := before;
      }
    }
  }

  /**
   * similar_terms holds, in input order, the line of exactly each term
   * recorded as Similar.
   */
  lemma {:induction false} SimilarInOrder(terms: seq<string>, outcomes: seq<Outcome>) returns (idx: seq<nat>)
    requires |terms| == |outcomes|
    ensures Ascending(idx, |terms|)
    ensures |idx| == |Accumulate(terms, outcomes).similarTerms|
    ensures forall i :: 0 <= i < |idx| ==>
      outcomes[idx[i]] == Similar(Accumulate(terms, outcomes).similarTerms[i])
    ensures forall j :: 0 <= j < |terms| && outcomes[j].Similar? ==> j in idx
  {
    if terms == [] {
      idx := [];
    } else {
      var n := |terms| - 1;
      var before := SimilarInOrder(terms[..n], outcomes[..n]);
      assert forall j :: 0 <= j < n ==> outcomes[..n][j] == outcomes[j];
      if outcomes[n].Similar? {
        idx := before + [n];
      } else {
        idx := before;
      }
    }
  }

  /**
   * With a scorer that gives 100 only to equal strings, the test
   * `similarity == 100` sorts terms correctly: found and dropped terms had
   * a title identical to them, similar terms a title that is not identical
   * and scores in [85, 100).
   */
  lemma OutcomeMatchesIdentity(sv: Services, term: string)
    requires ValidScorer(sv.ratio)
    ensures var (title, score) := Resolve(sv.ratio, term, sv.wikipedia(term));
      match Classify(sv, term)
      case Found(_) => title.Some? && TermsAreIdentical(term, title.value)
      case FetchFailed => title.Some? && TermsAreIdentical(term, title.value)
      case Similar(_) => title.Some? && !TermsAreIdentical(term, title.value) && Threshold <= score < ExactScore
      case NotFound => title.None? || title.value == ""
  {
  }

  /**
   * The summary: the three counts never exceed the number of terms and
   * reach it when no ontology fetch failed; the percentage is undefined
   * only for an empty term list and otherwise lies in [0, 100].
   */
  lemma SummaryFacts(sv: Services, terms: seq<string>)
    ensures var s := Summarize(RunAll(sv, terms), |terms|);
      s.total == |terms| &&
      s.found + s.similar + s.notFound <= s.total &&
      (Dropped(Outcomes(sv, terms)) == 0 ==> s.found + s.similar + s.notFound == s.total) &&
      (s.percentage.None? <==> terms == []) &&
      (s.percentage.Some? ==> 0.0 <= s.percentage.value <= 100.0)
  {
    TallyCounts(terms, Outcomes(sv, terms));
  }
}

/**
 * The candidate selection of search_wikipedia (app.py).  The Wikipedia
 * search request is a parameter: `wikipedia(term)` is the list of result
 * titles in the order the service returns them, or None when the response
 * carries no `query.search`.  fuzz.ratio is the parameter `ratio`.
 */
module Resolver {
  import opened Wrappers
  import opened Normalize

  /** The score below which a fuzzy candidate is rejected. */
  const Threshold: real := 85.0

  /** The score reported for an exact match. */
  const ExactScore: real := 100.0

  /**
   * What the selection relies on from fuzz.ratio: a score in [0, 100] that
   * is 100 only for equal strings.
   */
  ghost predicate ValidScorer(ratio: (string, string) -> real)
  {
    forall x, y :: 0.0 <= ratio(x, y) <= 100.0 && (ratio(x, y) == 100.0 ==> x == y)
  }

  /** `fuzz.ratio(term.lower(), title.lower())` */
  function Score(ratio: (string, string) -> real, term: string, title: string): real
  {
    ratio(Lower(term), Lower(title))
  }

  /** The fuzzy score of every title against the term, in result order. */
  function Scores(ratio: (string, string) -> real, term: string, titles: seq<string>): seq<real>
  {
    seq(|titles|, i requires 0 <= i < |titles| => Score(ratio, term, titles[i]))
  }

  /** The index of the first title identical to the term, if any. */
  function FirstIdentical(term: string, titles: seq<string>): (r: Option<nat>)
    ensures r.Some? ==> r.value < |titles| && TermsAreIdentical(term, titles[r.value])
    ensures r.Some? ==> forall j :: 0 <= j < r.value ==> !TermsAreIdentical(term, titles[j])
    ensures r.None? ==> forall j :: 0 <= j < |titles| ==> !TermsAreIdentical(term, titles[j])
  {
    if titles == [] then None
    else if TermsAreIdentical(term, titles[0]) then Some(0)
    else
      match FirstIdentical(term, titles[1..])
      case None => None
      case Some(k) => Some(k + 1)
  }

  /**
   * The index a running maximum with strict `>`, started at 0, ends on:
   * the earliest index holding the largest score, provided that score is
   * positive.
   */
  function BestFuzzy(scores: seq<real>): (r: Option<nat>)
    ensures r.Some? ==> r.value < |scores| && scores[r.value] > 0.0
    ensures r.Some? ==> forall j :: 0 <= j < |scores| ==> scores[j] <= scores[r.value]
    ensures r.Some? ==> forall j :: 0 <= j < r.value ==> scores[j] < scores[r.value]
    ensures r.None? ==> forall j :: 0 <= j < |scores| ==> scores[j] <= 0.0
  {
    if scores == [] then None
    else
      var prev := BestFuzzy(scores[..|scores| - 1]);
      var high := if prev.Some? then scores[prev.value] else 0.0;
      if scores[|scores| - 1] > high then Some(|scores| - 1) else prev
  }

  /** The score of the running best after a prefix: 0 when there is none. */
  function BestScore(scores: seq<real>): real
  {
    match BestFuzzy(scores)
    case None => 0.0
    case Some(k) => scores[k]
  }

  /** The exact-match index, once the scan reaches the first identical title. */
  lemma {:induction false} FirstIdenticalAt(term: string, titles: seq<string>, i: nat)
    requires i < |titles| && FirstIdentical(term, titles[..i]) == None
    ensures TermsAreIdentical(term, titles[i]) ==> FirstIdentical(term, titles) == Some(i)
    ensures !TermsAreIdentical(term, titles[i]) ==> FirstIdentical(term, titles[..i + 1]) == None
  {
    if i > 0 {
      assert titles[..i][0] == titles[0];
      assert titles[..i][1..] == titles[1..][..i - 1];
      FirstIdenticalAt(term, titles[1..], i - 1);
      assert titles[..i + 1][1..] == titles[1..][..i];
    }
  }

  /** One step of the running maximum. */
  lemma BestFuzzyStep(scores: seq<real>, i: nat)
    requires i < |scores|
    ensures BestFuzzy(scores[..i + 1]) ==
      if scores[i] > BestScore(scores[..i]) then Some(i) else BestFuzzy(scores[..i])
    ensures BestScore(scores[..i + 1]) ==
      if scores[i] > BestScore(scores[..i]) then scores[i] else BestScore(scores[..i])
  {
  }

  /**
   * What search_wikipedia returns for a search response: the first
   * identical title with score 100; otherwise the best fuzzy title with its
   * score when that title is non-empty and scores at least 85; otherwise
   * (None, 0).
   */
  function Resolve(ratio: (string, string) -> real, term: string, response: Option<seq<string>>): (Option<string>, real)
  {
    match response
    case None => (None, 0.0)
    case Some(titles) =>
      match FirstIdentical(term, titles)
      case Some(i) => (Some(titles[i]), ExactScore)
      case None =>
        var scores := Scores(ratio, term, titles);
        match BestFuzzy(scores)
        case None => (None, 0.0)
        case Some(k) =>
          if titles[k] != "" && scores[k] >= Threshold then (Some(titles[k]), scores[k])
          else (None, 0.0)
  }

  /**
   * search_wikipedia: scans the result titles in order, returns at once on
   * the first identical title, and otherwise keeps the strictly better
   * fuzzy candidate, accepted only at 85 or above.
   */
  method SearchWikipedia(term: string, wikipedia: string -> Option<seq<string>>, ratio: (string, string) -> real)
    returns (title: Option<string>, score: real)
    ensures (title, score) == Resolve(ratio, term, wikipedia(term))
  {
    var data := wikipedia(term);
    if data.Some? {
      var titles := data.value;
      ghost var scores := Scores(ratio, term, titles);
      var bestMatch: Option<string> := None;
      var highestRatio: real := 0.0;
      ghost var bestIndex: Option<nat> := None;
      var i := 0;
      while i < |titles|
        invariant 0 <= i <= |titles|
        invariant FirstIdentical(term, titles[..i]) == None
        invariant bestIndex == BestFuzzy(scores[..i])
        invariant highestRatio == BestScore(scores[..i])
        invariant bestIndex.None? ==> bestMatch.None?
        invariant bestIndex.Some? ==> bestIndex.value < i && bestMatch == Some(titles[bestIndex.value])
      {
        var t := titles[i];
        FirstIdenticalAt(term, titles, i);
        if TermsAreIdentical(term, t) {
          assert Resolve(ratio, term, data) == (Some(t), ExactScore);
          return Some(t), ExactScore;
        }
        var similarity := ratio(Lower(term), Lower(t));
        BestFuzzyStep(scores, i);
        if similarity > highestRatio {
          highestRatio := similarity;
          bestMatch := Some(t);
          bestIndex := Some(i);
        }
        i := i + 1;
      }
      assert scores[..i] == scores;
      assert titles[..i] == titles;
      assert Resolve(ratio, term, data) ==
        if bestMatch.Some? && bestMatch.value != "" && highestRatio >= Threshold
        then (bestMatch, highestRatio) else (None, 0.0);
      if bestMatch.Some? && bestMatch.value != "" && highestRatio >= Threshold {
        return bestMatch, highestRatio;
      }
    }
    return None, 0.0;
  }

  /**
   * An identical title always wins, wherever it stands and whatever the
   * other titles score: the first one is returned with score 100.
   */
  lemma ExactMatchWins(ratio: (string, string) -> real, term: string, titles: seq<string>, i: nat)
    requires i < |titles| && TermsAreIdentical(term, titles[i])
    ensures exists k :: 0 <= k <= i && Resolve(ratio, term, Some(titles)) == (Some(titles[k]), ExactScore)
    ensures Resolve(ratio, term, Some(titles)).0.Some?
    ensures TermsAreIdentical(term, Resolve(ratio, term, Some(titles)).0.value)
  {
  }

  /** Titles after the first identical one are never examined. */
  lemma {:induction false} IgnoresTitlesAfterExact(ratio: (string, string) -> real, term: string,
                                                    titles: seq<string>, i: nat, rest: seq<string>)
    requires FirstIdentical(term, titles) == Some(i)
    ensures Resolve(ratio, term, Some(titles[..i + 1] + rest)) == Resolve(ratio, term, Some(titles))
    ensures Resolve(ratio, term, Some(titles)) == (Some(titles[i]), ExactScore)
  {
    var t := titles[..i + 1] + rest;
    assert forall j :: 0 <= j <= i ==> t[j] == titles[j];
    FirstIdenticalAt(term, t, i);
    assert t[..i] == titles[..i];
    FirstIdenticalAt(term, titles, i);
  }

  /**
   * Without an identical title, a returned title is the earliest one with
   * the largest fuzzy score, that score is positive and at least 85, and
   * the title is not empty.
   */
  lemma FuzzyChoice(ratio: (string, string) -> real, term: string, titles: seq<string>) returns (k: nat)
    requires FirstIdentical(term, titles) == None
    requires Resolve(ratio, term, Some(titles)).0.Some?
    ensures k < |titles| && Resolve(ratio, term, Some(titles)) == (Some(titles[k]), Score(ratio, term, titles[k]))
    ensures titles[k] != "" && Score(ratio, term, titles[k]) >= Threshold
    ensures forall j :: 0 <= j < |titles| ==> Score(ratio, term, titles[j]) <= Score(ratio, term, titles[k])
    ensures forall j :: 0 <= j < k ==> Score(ratio, term, titles[j]) < Score(ratio, term, titles[k])
    ensures forall j :: 0 <= j < |titles| ==> !TermsAreIdentical(term, titles[j])
  {
    var scores := Scores(ratio, term, titles);
    assert forall j :: 0 <= j < |titles| ==> scores[j] == Score(ratio, term, titles[j]);
    k := BestFuzzy(scores).value;
  }

  /**
   * Conversely, without an identical title, the earliest title with the
   * largest fuzzy score is returned with that score whenever it is
   * non-empty and scores at least 85 (exactly 85 included).
   */
  lemma FuzzyAccepted(ratio: (string, string) -> real, term: string, titles: seq<string>, k: nat)
    requires FirstIdentical(term, titles) == None
    requires k < |titles| && titles[k] != ""
    requires forall j :: 0 <= j < |titles| ==> Score(ratio, term, titles[j]) <= Score(ratio, term, titles[k])
    requires forall j :: 0 <= j < k ==> Score(ratio, term, titles[j]) < Score(ratio, term, titles[k])
    requires Score(ratio, term, titles[k]) >= Threshold
    ensures Resolve(ratio, term, Some(titles)) == (Some(titles[k]), Score(ratio, term, titles[k]))
  {
    var scores := Scores(ratio, term, titles);
    assert forall j :: 0 <= j < |titles| ==> scores[j] == Score(ratio, term, titles[j]);
    assert BestFuzzy(scores) == Some(k);
  }

  /**
   * The (None, 0) outcomes: no `query.search` in the response, an empty
   * result list, or no identical title and every score below 85.
   */
  lemma NotFoundCases(ratio: (string, string) -> real, term: string, response: Option<seq<string>>)
    ensures response.None? ==> Resolve(ratio, term, response) == (None, 0.0)
    ensures response == Some([]) ==> Resolve(ratio, term, response) == (None, 0.0)
    ensures response.Some? &&
            (forall j :: 0 <= j < |response.value| ==>
               !TermsAreIdentical(term, response.value[j]) && Score(ratio, term, response.value[j]) < Threshold)
            ==> Resolve(ratio, term, response) == (None, 0.0)
    ensures Resolve(ratio, term, response).0.None? ==> Resolve(ratio, term, response).1 == 0.0
  {
  }

  /**
   * With a scorer that gives 100 only to equal strings, the score of a
   * returned title is in [85, 100], and it is 100 exactly when the title
   * is identical to the term: the exact and the similar outcome can be told
   * apart by the score alone.
   */
  lemma FullScoreIffIdentical(ratio: (string, string) -> real, term: string, response: Option<seq<string>>)
    requires ValidScorer(ratio)
    ensures var (title, score) := Resolve(ratio, term, response);
      title.Some? ==> Threshold <= score <= ExactScore &&
                      (score == ExactScore <==> TermsAreIdentical(term, title.value))
  {
  }
}

/**
 * get_dbpedia_ontology (app.py): the SPARQL query built around the
 * resource IRI of a normalized title, and the treatment of the reply.
 * The DBpedia endpoint is the parameter `dbpedia`, a black box from query
 * text to reply.
 */
module Ontology {
  import opened Wrappers
  import opened Normalize

  /** A decoded JSON document. */
  datatype Json =
    | JNull
    | JBool(b: bool)
    | JNumber(n: real)
    | JString(s: string)
    | JArray(items: seq<Json>)
    | JObject(fields: seq<(string, Json)>)

  /** Python truthiness of a decoded JSON value (`if ontology:`). */
  predicate Truthy(j: Json)
  {
    match j
    case JNull => false
    case JBool(b) => b
    case JNumber(n) => n != 0.0
    case JString(s) => s != ""
    case JArray(items) => items != []
    case JObject(fields) => fields != []
  }

  /** The reply of the SPARQL endpoint: an HTTP status and the decoded body. */
  datatype DbResponse = DbResponse(status: int, body: Json)

  const ResourcePrefix: string := "http://dbpedia.org/resource/"

  /** The text of the query around the resource IRI, as the f-string lays it out. */
  const QueryHead: string := "\n    SELECT ?property ?value\n    WHERE {\n        <"
  const QueryTail: string := "> ?property ?value\n    }\n    LIMIT 50\n    "

  /** The DBpedia resource IRI of a title. */
  function ResourceIri(title: string): string
  {
    ResourcePrefix + NormalizeTerm(title)
  }

  /** The SPARQL query sent for a title: every property and value of its resource, at most 50 rows. */
  function SparqlQuery(title: string): string
  {
    QueryHead + ResourceIri(title) + QueryTail
  }

  /** get_dbpedia_ontology: the decoded body on status 200, otherwise None. */
  function GetDbpediaOntology(title: string, dbpedia: string -> DbResponse): Option<Json>
  {
    var response := dbpedia(SparqlQuery(title));
    if response.status == 200 then Some(response.body) else None
  }

  /**
   * The part of the IRI after the prefix is the normalized title: it holds
   * no space, hyphen, parenthesis or uppercase ASCII letter.
   */
  lemma ResourceIriShape(title: string)
    ensures |ResourceIri(title)| >= |ResourcePrefix|
    ensures ResourceIri(title)[..|ResourcePrefix|] == ResourcePrefix
    ensures IsNormal(ResourceIri(title)[|ResourcePrefix|..])
    ensures |ResourceIri(title)| <= |ResourcePrefix| + |title|
  {
    NormalizeOutput(title);
    assert ResourceIri(title)[|ResourcePrefix|..] == NormalizeTerm(title);
  }

  /** Two titles give the same query exactly when they are identical terms. */
  lemma SameQueryIffIdentical(a: string, b: string)
    ensures SparqlQuery(a) == SparqlQuery(b) <==> TermsAreIdentical(a, b)
  {
    if SparqlQuery(a) == SparqlQuery(b) {
      var n := |QueryHead| + |ResourcePrefix|;
      var qa, qb := SparqlQuery(a), SparqlQuery(b);
      assert |qa| == |qb|;
      assert qa[n..|qa| - |QueryTail|] == NormalizeTerm(a);
      assert qb[n..|qb| - |QueryTail|] == NormalizeTerm(b);
    }
  }

  /** Identical titles fetch the same ontology. */
  lemma IdenticalTitlesSameOntology(a: string, b: string, dbpedia: string -> DbResponse)
    requires TermsAreIdentical(a, b)
    ensures GetDbpediaOntology(a, dbpedia) == GetDbpediaOntology(b, dbpedia)
  {
  }
}

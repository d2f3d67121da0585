/**
 * RDF terms and triples as the two libraries of the system see them.
 *
 * The streaming parser yields raw terms; the in-memory graph library holds
 * graph terms. Every term kind exposes its string form as `value`, which is
 * what both `term.value` on a raw term and `str(term)` on a graph term return.
 */
module Rdf {
  import opened Wrappers

  /** A term as the streaming parser reports it. A parsed literal always
      carries a datatype; a language-tagged one carries `RDF_LANG_STRING` as
      its datatype and its language tag besides. */
  datatype RawTerm =
    | NamedNode(value: string)
    | BlankNode(value: string)
    | RawLiteral(value: string, datatypeIri: string, language: Option<string>)

  datatype RawTriple = RawTriple(s: RawTerm, p: RawTerm, o: RawTerm)

  /** A term of the in-memory graph. `value` is the IRI, the blank-node label
      or the literal's lexical form. */
  datatype Term =
    | IRI(value: string)
    | BNode(value: string)
    | Lit(value: string, datatypeIri: Option<string>, lang: Option<string>)

  datatype Triple = Triple(s: Term, p: Term, o: Term)

  /** A graph is a mathematical set: structurally identical triples coincide
      and insertion order is irrelevant. `g + h` is the library's `Graph + Graph`. */
  type Graph = set<Triple>

  /** The datatype the streaming parser reports for a language-tagged literal. */
  const RDF_LANG_STRING: string := "http://www.w3.org/1999/02/22-rdf-syntax-ns#langString"

  /** The lexical form the graph library stores for a literal built from a
      lexical form and a datatype IRI. For the XSD datatypes it recognises it
      stores the canonical form of the value ("05" as xsd:integer becomes
      "5"); otherwise it keeps the lexical form as given. The model leaves the
      library's table of datatypes abstract. */
  type Normalizer = (string, string) -> string

  /** The predicate both constraint loaders follow. */
  const OWL_IMPORTS: string := "http://www.w3.org/2002/07/owl#imports"

  /** The triples of a document, forgetting the order the store yields them in. */
  function GraphOf(doc: seq<Triple>): (g: Graph)
    ensures forall t :: t in g <==> t in doc
  {
    set t | t in doc
  }
}

/**
 * The literal typing pass run over every parsed triple of an instance file:
 * subjects, predicates and non-literal objects become IRIs of their string
 * form; a literal gets the datatype the table assigns to its predicate, or
 * keeps the parser's datatype, and the graph library stores the normalised
 * lexical form for that datatype. A language-tagged literal cannot be built
 * (the library refuses a literal with both a datatype and a language, and
 * the parser always reports a datatype), so it ends the pass with an error.
 */
module Relabel {
  import opened Wrappers
  import opened Rdf
  import opened DatatypeTable

  /** A parsed triple the pass can convert: its object is not a
      language-tagged literal. */
  predicate Convertible(t: RawTriple)
  {
    !(t.o.RawLiteral? && t.o.language.Some?)
  }

  /** The conversion of one convertible parsed triple into a graph triple. */
  function RelabelTriple(t: RawTriple, table: Table, norm: Normalizer): (r: Triple)
    ensures r.s == IRI(t.s.value) && r.p == IRI(t.p.value)
    ensures !t.o.RawLiteral? ==> r.o == IRI(t.o.value)
    ensures t.o.RawLiteral? ==>
      r.o.Lit? && r.o.datatypeIri.Some? && r.o.lang == t.o.language &&
      r.o.value == norm(t.o.value, r.o.datatypeIri.value)
  {
    var o :=
      match t.o
      case RawLiteral(v, dt, lang) =>
        (match Lookup(table, t.p.value)
         case None => Lit(norm(v, dt), Some(dt), lang)
         case Some(mapped) => Lit(norm(v, mapped), Some(mapped), lang))
      case _ => IRI(t.o.value);
    Triple(IRI(t.s.value), IRI(t.p.value), o)
  }

  /** The graph a parsed triple stream turns into when every triple in it is
      convertible: one converted triple per stream triple, and nothing else. */
  function RelabelAll(ts: seq<RawTriple>, table: Table, norm: Normalizer): (g: Graph)
    ensures forall i :: 0 <= i < |ts| ==> RelabelTriple(ts[i], table, norm) in g
    ensures forall tr :: tr in g ==> exists i :: 0 <= i < |ts| && tr == RelabelTriple(ts[i], table, norm)
  {
    set i | 0 <= i < |ts| :: RelabelTriple(ts[i], table, norm)
  }

  /** The datatype a literal ends up with, stated against the sheet itself:
      it is `d` exactly when the first row naming the predicate says `d`, or
      no row names the predicate and the parser reported `d`. */
  lemma RelabelledDatatype(t: RawTriple, table: Table, norm: Normalizer, d: string)
    requires t.o.RawLiteral?
    ensures RelabelTriple(t, table, norm).o.datatypeIri == Some(d) <==>
      (exists i :: 0 <= i < |table| && table[i] == Row(t.p.value, d) &&
         forall j :: 0 <= j < i ==> table[j].property != t.p.value) ||
      ((forall i :: 0 <= i < |table| ==> table[i].property != t.p.value) && d == t.o.datatypeIri)
  {
    var p := t.p.value;
    if exists i :: 0 <= i < |table| && table[i] == Row(p, d) &&
         forall j :: 0 <= j < i ==> table[j].property != p {
      var i :| 0 <= i < |table| && table[i] == Row(p, d) &&
         forall j :: 0 <= j < i ==> table[j].property != p;
      var r := Lookup(table, p);
      var i' :| 0 <= i' < |table| && table[i'] == Row(p, r.value) &&
        forall j :: 0 <= j < i' ==> table[j].property != p;
    }
  }

  /** After the pass, every literal under a predicate the table maps to `d`
      carries `d`, whatever datatype the parser gave it. */
  lemma MappedPredicateTyped(ts: seq<RawTriple>, table: Table, norm: Normalizer, p: string, d: string)
    requires Lookup(table, p) == Some(d)
    ensures forall tr :: tr in RelabelAll(ts, table, norm) && tr.p == IRI(p) && tr.o.Lit? ==>
      tr.o.datatypeIri == Some(d)
  {
  }

  /** The pass depends only on the set of parsed triples: order and repeats in
      the parser's stream do not matter. */
  lemma RelabelAllOfSameTriples(a: seq<RawTriple>, b: seq<RawTriple>, table: Table, norm: Normalizer)
    requires forall t :: t in a <==> t in b
    ensures RelabelAll(a, table, norm) == RelabelAll(b, table, norm)
  {
    forall tr | tr in RelabelAll(a, table, norm) ensures tr in RelabelAll(b, table, norm) {
      var i :| 0 <= i < |a| && tr == RelabelTriple(a[i], table, norm);
      assert a[i] in b;
      var j :| 0 <= j < |b| && b[j] == a[i];
    }
    forall tr | tr in RelabelAll(b, table, norm) ensures tr in RelabelAll(a, table, norm) {
      var j :| 0 <= j < |b| && tr == RelabelTriple(b[j], table, norm);
      assert b[j] in a;
      var i :| 0 <= i < |a| && a[i] == b[j];
    }
  }

  lemma RelabelAllSnoc(ts: seq<RawTriple>, t: RawTriple, table: Table, norm: Normalizer)
    ensures RelabelAll(ts + [t], table, norm) == RelabelAll(ts, table, norm) + {RelabelTriple(t, table, norm)}
  {
    var u := ts + [t];
    assert u[|ts|] == t;
    forall tr | tr in RelabelAll(ts, table, norm) ensures tr in RelabelAll(u, table, norm) {
      var i :| 0 <= i < |ts| && tr == RelabelTriple(ts[i], table, norm);
      assert u[i] == ts[i];
    }
    forall tr | tr in RelabelAll(u, table, norm) ensures tr in RelabelAll(ts, table, norm) + {RelabelTriple(t, table, norm)} {
      var i :| 0 <= i < |u| && tr == RelabelTriple(u[i], table, norm);
      if i < |ts| { assert u[i] == ts[i]; }
    }
  }

  /** Two literals under the same subject and sheet-mapped predicate whose
      lexical forms normalise alike for the mapped datatype ("05" and "5" as
      xsd:integer) become one triple. */
  lemma NormalisedLiteralsMerge(s: string, p: string, table: Table, norm: Normalizer, d: string,
                                lex1: string, dt1: string, lex2: string, dt2: string)
    requires Lookup(table, p) == Some(d) && norm(lex1, d) == norm(lex2, d)
    ensures var t1 := RawTriple(NamedNode(s), NamedNode(p), RawLiteral(lex1, dt1, None));
      var t2 := RawTriple(NamedNode(s), NamedNode(p), RawLiteral(lex2, dt2, None));
      RelabelAll([t1, t2], table, norm) == {Triple(IRI(s), IRI(p), Lit(norm(lex1, d), Some(d), None))}
  {
    var t1 := RawTriple(NamedNode(s), NamedNode(p), RawLiteral(lex1, dt1, None));
    var t2 := RawTriple(NamedNode(s), NamedNode(p), RawLiteral(lex2, dt2, None));
    var x := Triple(IRI(s), IRI(p), Lit(norm(lex1, d), Some(d), None));
    assert RelabelTriple(t1, table, norm) == x;
    assert RelabelTriple(t2, table, norm) == x;
    RelabelAllSnoc([t1], t2, table, norm);
    RelabelAllSnoc([], t1, table, norm);
    assert [] + [t1] == [t1] && [t1] + [t2] == [t1, t2];
    assert RelabelAll([], table, norm) == {};
  }

  /** `process_iterator`: one pass over the parser's stream, adding each
      converted triple to a fresh local graph. It raises (`None`) exactly when
      the stream holds a language-tagged literal, and otherwise returns the
      converted triples of the whole stream. */
  method ProcessIterator(ts: seq<RawTriple>, table: Table, norm: Normalizer) returns (r: Option<Graph>)
    ensures r.Some? <==> forall i :: 0 <= i < |ts| ==> Convertible(ts[i])
    ensures r.Some? ==> r.value == RelabelAll(ts, table, norm)
  {
    var g: Graph := {};
    var i := 0;
    while i < |ts|
      invariant 0 <= i <= |ts|
      invariant forall j :: 0 <= j < i ==> Convertible(ts[j])
      invariant g == RelabelAll(ts[..i], table, norm)
    {
      if !Convertible(ts[i]) {
        return None;
      }
      assert ts[..i + 1] == ts[..i] + [ts[i]];
      RelabelAllSnoc(ts[..i], ts[i], table, norm);
      g := g + {RelabelTriple(ts[i], table, norm)};
      i := i + 1;
    }
    assert ts[..i] == ts;
    r := Some(g);
  }
}

/**
 * The older constraint loader, the one the OK button runs: one pass over a
 * parsed Turtle document. An `owl:imports` triple opens its object as a local
 * file, parses it and recurses into it, with no visited set; every other
 * triple is converted and added. The depth bound stands for the interpreter's
 * recursion limit, which is what ends an import cycle.
 */
module ShaclIterator {
  import opened Wrappers
  import opened Rdf

  datatype ShaclError = FileUnreadable(path: string) | RecursionLimit

  /** The graph built so far and the files opened so far, in opening order. */
  datatype Run = Run(graph: Graph, files: seq<string>)

  predicate IsImport(t: RawTriple)
  {
    t.p.value == OWL_IMPORTS
  }

  /** The conversion of a non-import triple. A literal keeps the parser's
      datatype, is stored in the graph library's normal lexical form for it,
      and loses its language tag; blank nodes and IRIs alike become IRIs of
      their string form. */
  function ConvertTriple(t: RawTriple, norm: Normalizer): (r: Triple)
    ensures r.s == IRI(t.s.value) && r.p == IRI(t.p.value)
    ensures t.o.RawLiteral? ==>
      r.o == Lit(norm(t.o.value, t.o.datatypeIri), Some(t.o.datatypeIri), None)
    ensures !t.o.RawLiteral? ==> r.o == IRI(t.o.value)
  {
    var o :=
      match t.o
      case RawLiteral(v, dt, _) => Lit(norm(v, dt), Some(dt), None)
      case _ => IRI(t.o.value);
    Triple(IRI(t.s.value), IRI(t.p.value), o)
  }

  /** `process_shacl_iterator(ts, acc)` for the local files `files` (a path
      absent from the map is one whose open or parse raises) and the graph
      library's lexical normalisation `norm`, allowed `depth` further nested
      calls. */
  function ProcessShacl(files: map<string, seq<RawTriple>>, norm: Normalizer, ts: seq<RawTriple>, acc: Run, depth: nat): (r: Result<Run, ShaclError>)
    ensures r.Success? ==> acc.graph <= r.value.graph && acc.files <= r.value.files
    ensures r.Success? ==> forall t :: t in r.value.graph - acc.graph ==> t.p != IRI(OWL_IMPORTS)
    ensures r.Success? ==> forall i :: 0 <= i < |ts| && !IsImport(ts[i]) ==> ConvertTriple(ts[i], norm) in r.value.graph
    decreases depth, |ts|
  {
    if |ts| == 0 then Success(acc)
    else
      var t := ts[0];
      assert forall i :: 1 <= i < |ts| ==> ts[i] == ts[1..][i - 1];
      if IsImport(t) then
        var path := t.o.value;
        if path !in files then Failure(FileUnreadable(path))
        else if depth == 0 then Failure(RecursionLimit)
        else
          match ProcessShacl(files, norm, files[path], Run(acc.graph, acc.files + [path]), depth - 1)
          case Failure(e) => Failure(e)
          case Success(sub) => ProcessShacl(files, norm, ts[1..], Run(sub.graph + sub.graph, sub.files), depth)
      else
        ProcessShacl(files, norm, ts[1..], Run(acc.graph + {ConvertTriple(t, norm)}, acc.files), depth)
  }

  /** A reference reading of the loader without its accumulator: the converted
      non-import triples of `ts`, together with what every file `ts` imports
      unfolds to, one level of depth further down; or the first error met in
      document order. */
  function Unfold(files: map<string, seq<RawTriple>>, norm: Normalizer, ts: seq<RawTriple>, depth: nat): (r: Result<Graph, ShaclError>)
    ensures r.Success? ==> forall i :: 0 <= i < |ts| && !IsImport(ts[i]) ==> ConvertTriple(ts[i], norm) in r.value
    ensures r.Success? ==> forall i :: 0 <= i < |ts| && IsImport(ts[i]) ==>
      depth > 0 && ts[i].o.value in files && Unfold(files, norm, files[ts[i].o.value], depth - 1).Success? &&
      Unfold(files, norm, files[ts[i].o.value], depth - 1).value <= r.value
    decreases depth, |ts|
  {
    if |ts| == 0 then Success({})
    else
      var t := ts[0];
      assert forall i :: 1 <= i < |ts| ==> ts[i] == ts[1..][i - 1];
      if IsImport(t) then
        var path := t.o.value;
        if path !in files then Failure(FileUnreadable(path))
        else if depth == 0 then Failure(RecursionLimit)
        else
          match Unfold(files, norm, files[path], depth - 1)
          case Failure(e) => Failure(e)
          case Success(h) =>
            (match Unfold(files, norm, ts[1..], depth)
             case Failure(e) => Failure(e)
             case Success(rest) => Success(h + rest))
      else
        match Unfold(files, norm, ts[1..], depth)
        case Failure(e) => Failure(e)
        case Success(rest) => Success({ConvertTriple(t, norm)} + rest)
  }

  /** Nothing else is in the unfolded graph: each of its triples is the
      conversion of a non-import triple of `ts`, or comes from the unfolding
      of a file `ts` imports. */
  lemma {:induction false} UnfoldOnlyTreeTriples(files: map<string, seq<RawTriple>>, norm: Normalizer, ts: seq<RawTriple>, depth: nat, tr: Triple)
    requires Unfold(files, norm, ts, depth).Success? && tr in Unfold(files, norm, ts, depth).value
    ensures exists i ::
      && 0 <= i < |ts|
      && ((!IsImport(ts[i]) && tr == ConvertTriple(ts[i], norm)) ||
          (IsImport(ts[i]) && depth > 0 && ts[i].o.value in files &&
           Unfold(files, norm, files[ts[i].o.value], depth - 1).Success? &&
           tr in Unfold(files, norm, files[ts[i].o.value], depth - 1).value))
    decreases |ts|
  {
    var rest := ts[1..];
    if IsImport(ts[0]) && tr in Unfold(files, norm, files[ts[0].o.value], depth - 1).value {
    } else if !IsImport(ts[0]) && tr == ConvertTriple(ts[0], norm) {
    } else {
      UnfoldOnlyTreeTriples(files, norm, rest, depth, tr);
      var j :| 0 <= j < |rest| &&
        ((!IsImport(rest[j]) && tr == ConvertTriple(rest[j], norm)) ||
         (IsImport(rest[j]) && depth > 0 && rest[j].o.value in files &&
          Unfold(files, norm, files[rest[j].o.value], depth - 1).Success? &&
          tr in Unfold(files, norm, files[rest[j].o.value], depth - 1).value));
      assert ts[j + 1] == rest[j];
    }
  }

  /** The loader computes the reference reading: started from graph `g` and
      any opened-file log, it fails exactly when `Unfold` does, with the same
      error, and otherwise ends with `g` plus the unfolded graph. So imported
      files' triples reach the result, and nothing but `g`, converted
      non-import triples and imported triples does. */
  lemma {:induction false} ProcessShaclIsUnfold(files: map<string, seq<RawTriple>>, norm: Normalizer, ts: seq<RawTriple>, g: Graph, log: seq<string>, depth: nat)
    ensures var r := ProcessShacl(files, norm, ts, Run(g, log), depth);
      var u := Unfold(files, norm, ts, depth);
      && (r.Success? <==> u.Success?)
      && (r.Failure? ==> r.error == u.error)
      && (r.Success? ==> r.value.graph == g + u.value)
    decreases depth, |ts|
  {
    if |ts| > 0 {
      var t := ts[0];
      var rest := ts[1..];
      if IsImport(t) {
        var path := t.o.value;
        if path in files && depth > 0 {
          ProcessShaclIsUnfold(files, norm, files[path], g, log + [path], depth - 1);
          var sub := ProcessShacl(files, norm, files[path], Run(g, log + [path]), depth - 1);
          if sub.Success? {
            ProcessShaclIsUnfold(files, norm, rest, sub.value.graph + sub.value.graph, sub.value.files, depth);
          }
        }
      } else {
        ProcessShaclIsUnfold(files, norm, rest, g + {ConvertTriple(t, norm)}, log, depth);
      }
    }
  }

  /** A file whose first triple imports the file itself exhausts any
      recursion depth: without a visited set the loader never terminates on
      an import cycle. */
  lemma {:induction false} SelfImportNeverTerminates(files: map<string, seq<RawTriple>>, norm: Normalizer, f: string, acc: Run, depth: nat)
    requires f in files && |files[f]| > 0
    requires IsImport(files[f][0]) && files[f][0].o.value == f
    ensures ProcessShacl(files, norm, files[f], acc, depth) == Failure(RecursionLimit)
    decreases depth
  {
    if depth > 0 {
      SelfImportNeverTerminates(files, norm, f, Run(acc.graph, acc.files + [f]), depth - 1);
    }
  }

  /** The depth bound only cuts runs off: a run that finishes within some
      depth finishes identically with more. */
  lemma {:induction false} MoreDepthSameRun(files: map<string, seq<RawTriple>>, norm: Normalizer, ts: seq<RawTriple>, acc: Run, depth: nat)
    requires ProcessShacl(files, norm, ts, acc, depth).Success?
    ensures ProcessShacl(files, norm, ts, acc, depth + 1) == ProcessShacl(files, norm, ts, acc, depth)
    decreases depth, |ts|
  {
    if |ts| > 0 {
      var t := ts[0];
      if IsImport(t) {
        var path := t.o.value;
        var sub := ProcessShacl(files, norm, files[path], Run(acc.graph, acc.files + [path]), depth - 1).value;
        MoreDepthSameRun(files, norm, files[path], Run(acc.graph, acc.files + [path]), depth - 1);
        MoreDepthSameRun(files, norm, ts[1..], Run(sub.graph + sub.graph, sub.files), depth);
      } else {
        MoreDepthSameRun(files, norm, ts[1..], Run(acc.graph + {ConvertTriple(t, norm)}, acc.files), depth);
      }
    }
  }

  /** The graph passed in is only ever added to: a pass started from graph
      `g` fails exactly when the same pass started from the empty graph
      fails, with the same error, and otherwise ends with `g` plus the graph
      and the opened-file log of that pass. The self-union after each import
      changes nothing. */
  lemma {:induction false} StartGraphOnlyAdded(files: map<string, seq<RawTriple>>, norm: Normalizer, ts: seq<RawTriple>, g: Graph, log: seq<string>, depth: nat)
    ensures var r := ProcessShacl(files, norm, ts, Run(g, log), depth);
      var r0 := ProcessShacl(files, norm, ts, Run({}, log), depth);
      && (r.Failure? <==> r0.Failure?)
      && (r.Failure? ==> r.error == r0.error)
      && (r.Success? ==> r.value == Run(g + r0.value.graph, r0.value.files))
    decreases depth, |ts|
  {
    if |ts| > 0 {
      var t := ts[0];
      var rest := ts[1..];
      if IsImport(t) {
        var path := t.o.value;
        if path in files && depth > 0 {
          var fs := log + [path];
          StartGraphOnlyAdded(files, norm, files[path], g, fs, depth - 1);
          var s1 := ProcessShacl(files, norm, files[path], Run(g, fs), depth - 1);
          var s0 := ProcessShacl(files, norm, files[path], Run({}, fs), depth - 1);
          if s1.Success? {
            var h1 := s1.value.graph + s1.value.graph;
            var h0 := s0.value.graph + s0.value.graph;
            assert h1 == g + h0;
            StartGraphOnlyAdded(files, norm, rest, h1, s1.value.files, depth);
            StartGraphOnlyAdded(files, norm, rest, h0, s1.value.files, depth);
          }
        }
      } else {
        var c := ConvertTriple(t, norm);
        StartGraphOnlyAdded(files, norm, rest, g + {c}, log, depth);
        StartGraphOnlyAdded(files, norm, rest, {} + {c}, log, depth);
        StartGraphOnlyAdded(files, norm, rest, {}, log, depth);
      }
    }
  }

  function Imp(target: string): RawTriple
  {
    RawTriple(NamedNode("urn:doc"), NamedNode(OWL_IMPORTS), NamedNode(target))
  }

  /** A language-tagged literal, which the parser reports as rdf:langString. */
  const LEAF: RawTriple := RawTriple(NamedNode("urn:s"), NamedNode("urn:p"), RawLiteral("x", RDF_LANG_STRING, Some("en")))

  const DIAMOND_FILES: map<string, seq<RawTriple>> :=
    map["b.ttl" := [Imp("d.ttl")], "c.ttl" := [Imp("d.ttl")], "d.ttl" := [LEAF]]

  /** A diamond: a root importing two files that both import a third. The
      shared file is opened and parsed twice; set union keeps its triple
      once, and its language tag is gone. */
  lemma DiamondOpensSharedFileTwice(norm: Normalizer)
    ensures ProcessShacl(DIAMOND_FILES, norm, [Imp("b.ttl"), Imp("c.ttl")], Run({}, []), 2) ==
      Success(Run({Triple(IRI("urn:s"), IRI("urn:p"), Lit(norm("x", RDF_LANG_STRING), Some(RDF_LANG_STRING), None))},
                  ["b.ttl", "d.ttl", "c.ttl", "d.ttl"]))
  {
    var x := Triple(IRI("urn:s"), IRI("urn:p"), Lit(norm("x", RDF_LANG_STRING), Some(RDF_LANG_STRING), None));
    var bd := ["b.ttl", "d.ttl"];
    var bdcd := ["b.ttl", "d.ttl", "c.ttl", "d.ttl"];
    assert ConvertTriple(LEAF, norm) == x;
    assert !IsImport(LEAF) && IsImport(Imp("b.ttl")) && IsImport(Imp("c.ttl")) && IsImport(Imp("d.ttl"));
    assert [LEAF][1..] == [] && [Imp("d.ttl")][1..] == [] && [Imp("c.ttl")][1..] == [];
    assert [Imp("b.ttl"), Imp("c.ttl")][1..] == [Imp("c.ttl")];
    assert [] + ["b.ttl"] == ["b.ttl"] && ["b.ttl"] + ["d.ttl"] == bd;
    assert bd + ["c.ttl"] + ["d.ttl"] == bdcd;
    // The first branch: b.ttl, then d.ttl inside it.
    assert ProcessShacl(DIAMOND_FILES, norm, [LEAF], Run({}, bd), 0) ==
      ProcessShacl(DIAMOND_FILES, norm, [], Run({} + {x}, bd), 0);
    var empty: Graph := {};
    assert empty + {x} == {x};
    assert ProcessShacl(DIAMOND_FILES, norm, [LEAF], Run({}, bd), 0) == Success(Run({x}, bd));
    assert ProcessShacl(DIAMOND_FILES, norm, [Imp("d.ttl")], Run({}, ["b.ttl"]), 1) ==
      ProcessShacl(DIAMOND_FILES, norm, [], Run({x} + {x}, bd), 1);
    assert ProcessShacl(DIAMOND_FILES, norm, [Imp("d.ttl")], Run({}, ["b.ttl"]), 1) == Success(Run({x}, bd));
    // The second branch: c.ttl, then d.ttl again.
    assert ProcessShacl(DIAMOND_FILES, norm, [LEAF], Run({x}, bdcd), 0) ==
      ProcessShacl(DIAMOND_FILES, norm, [], Run({x} + {x}, bdcd), 0);
    assert ProcessShacl(DIAMOND_FILES, norm, [LEAF], Run({x}, bdcd), 0) == Success(Run({x}, bdcd));
    assert ProcessShacl(DIAMOND_FILES, norm, [Imp("d.ttl")], Run({x}, bd + ["c.ttl"]), 1) ==
      ProcessShacl(DIAMOND_FILES, norm, [], Run({x} + {x}, bdcd), 1);
    assert ProcessShacl(DIAMOND_FILES, norm, [Imp("c.ttl")], Run({x}, bd), 2) ==
      ProcessShacl(DIAMOND_FILES, norm, [], Run({x} + {x}, bdcd), 2);
    assert ProcessShacl(DIAMOND_FILES, norm, [Imp("b.ttl"), Imp("c.ttl")], Run({}, []), 2) ==
      ProcessShacl(DIAMOND_FILES, norm, [Imp("c.ttl")], Run({x} + {x}, bd), 2);
  }
}

/**
 * Instance-data ingestion: every selected file is read and handed to the
 * entry processor, which opens archives (recursively, members in archive
 * order), parses recognised RDF leaves with one fixed parser call, relabels
 * their literals, and unions the result into the running instance graph.
 * Any exception (unreadable file, corrupt archive, parse error) propagates
 * and ends the run.
 */
module Ingest {
  import opened Wrappers
  import opened Rdf
  import opened Dispatch
  import opened DatatypeTable
  import opened Relabel
  import Paths

  /** What the zip reader makes of some bytes: their members, in the
      archive's own order, or `Unreadable` when opening them as an archive
      (or reading a member) raises. */
  datatype ArchiveView = Unreadable | Readable(members: seq<Member>)

  /** The bytes of a file or archive member, together with their archive view. */
  datatype Blob = Blob(bytes: seq<bv8>, archive: ArchiveView)

  /** A named entry: a selected file (named by its path) or an archive member. */
  datatype Member = Member(name: string, blob: Blob)

  /** The exceptions that can end an ingestion run. `ParseFailed` covers both
      the parser raising and the typing pass refusing a language-tagged
      literal. */
  datatype IngestError =
    | ReadFailed(path: string)
    | ArchiveCorrupt(name: string)
    | ParseFailed(name: string)

  /** The arguments of the streaming parser call. */
  datatype ParseRequest = ParseRequest(input: seq<bv8>, mimeType: string, baseIri: string)

  /** The collaborators of a run: the datatype table, the streaming parser,
      which yields the triple stream or `None` when it raises, and the graph
      library's lexical normalisation. */
  datatype Ingestor = Ingestor(table: Table, parse: ParseRequest -> Option<seq<RawTriple>>, norm: Normalizer)

  const RDF_XML_MIME: string := "application/rdf+xml"
  const CIM16_BASE: string := "http://iec.ch/TC57/2013/CIM-schema-cim16#"

  /** The one parser call every recognised leaf gets, whatever its extension. */
  function LeafRequest(b: Blob): ParseRequest
  {
    ParseRequest(b.bytes, RDF_XML_MIME, CIM16_BASE)
  }

  /** The parsed stream of one leaf consists of convertible triples only. */
  predicate AllConvertible(ts: seq<RawTriple>)
  {
    forall i :: 0 <= i < |ts| ==> Convertible(ts[i])
  }

  /** The typed graph of one RDF leaf: its bytes parsed as RDF/XML against the
      CIM16 base, then run through the typing pass. `None` when the parser
      raises or the stream holds a language-tagged literal; otherwise one
      converted triple per parsed triple, and nothing else. */
  function ParseLeaf(ing: Ingestor, m: Member): (r: Option<Graph>)
    ensures r.Some? <==> ing.parse(LeafRequest(m.blob)).Some? && AllConvertible(ing.parse(LeafRequest(m.blob)).value)
    ensures r.Some? ==> forall tr :: tr in r.value <==>
      exists i :: 0 <= i < |ing.parse(LeafRequest(m.blob)).value| &&
        tr == RelabelTriple(ing.parse(LeafRequest(m.blob)).value[i], ing.table, ing.norm)
  {
    match ing.parse(LeafRequest(m.blob))
    case None => None
    case Some(ts) => if AllConvertible(ts) then Some(RelabelAll(ts, ing.table, ing.norm)) else None
  }

  /** `process_entry_content`, with the running instance graph `g` threaded
      through: archives fold over their members, RDF leaves are parsed and
      unioned in, everything else leaves `g` as it is. */
  function IngestEntry(ing: Ingestor, g: Graph, m: Member): (r: Result<Graph, IngestError>)
    ensures Classify(m.name) == Unsupported ==> r == Success(g)
    ensures r.Success? ==> g <= r.value
    decreases m, 1, 0
  {
    match Classify(m.name)
    case Archive =>
      if m.blob.archive.Unreadable? then Failure(ArchiveCorrupt(m.name))
      else IngestMembers(ing, g, m, 0)
    case Leaf(_) =>
      (match ParseLeaf(ing, m)
       case None => Failure(ParseFailed(m.name))
       case Some(local) => Success(g + local))
    case Unsupported => Success(g)
  }

  /** The members of an archive entry, in archive order. */
  function MembersOf(parent: Member): seq<Member>
    requires parent.blob.archive.Readable?
  {
    parent.blob.archive.members
  }

  /** The loop over an archive's members from the `i`-th on, stopping at the
      first exception. */
  function IngestMembers(ing: Ingestor, g: Graph, parent: Member, i: nat): (r: Result<Graph, IngestError>)
    requires parent.blob.archive.Readable? && i <= |MembersOf(parent)|
    ensures r.Success? ==> g <= r.value
    decreases parent, 0, |MembersOf(parent)| - i
  {
    if i == |MembersOf(parent)| then Success(g)
    else
      assert MembersOf(parent)[i] in parent.blob.archive.members;
      match IngestEntry(ing, g, MembersOf(parent)[i])
      case Failure(e) => Failure(e)
      case Success(g1) => IngestMembers(ing, g1, parent, i + 1)
  }

  /** `process_instance_data_contents`: read each path in turn and process it
      as an entry named by that path. */
  function IngestFiles(ing: Ingestor, files: map<string, Blob>, g: Graph, paths: seq<string>): (r: Result<Graph, IngestError>)
    ensures r.Success? ==> g <= r.value
    decreases |paths|
  {
    if |paths| == 0 then Success(g)
    else if paths[0] !in files then Failure(ReadFailed(paths[0]))
    else
      match IngestEntry(ing, g, Member(paths[0], files[paths[0]]))
      case Failure(e) => Failure(e)
      case Success(g1) => IngestFiles(ing, files, g1, paths[1..])
  }

  // ---------------------------------------------------------------------
  // A reference definition: the flat list of RDF leaves inside an entry.

  /** The RDF leaves of an entry in processing order, or the first corrupt
      archive met on the way. */
  function Leaves(m: Member): Result<seq<Member>, IngestError>
    decreases m, 1, 0
  {
    match Classify(m.name)
    case Archive =>
      if m.blob.archive.Unreadable? then Failure(ArchiveCorrupt(m.name))
      else LeavesOf(m, 0)
    case Leaf(_) => Success([m])
    case Unsupported => Success([])
  }

  /** The leaves of the members of an archive from the `i`-th on. */
  function LeavesOf(parent: Member, i: nat): Result<seq<Member>, IngestError>
    requires parent.blob.archive.Readable? && i <= |MembersOf(parent)|
    decreases parent, 0, |MembersOf(parent)| - i
  {
    if i == |MembersOf(parent)| then Success([])
    else
      assert MembersOf(parent)[i] in parent.blob.archive.members;
      match Leaves(MembersOf(parent)[i])
      case Failure(e) => Failure(e)
      case Success(l0) =>
        (match LeavesOf(parent, i + 1)
         case Failure(e) => Failure(e)
         case Success(rest) => Success(l0 + rest))
  }

  /** The union of the relabelled graphs of a list of leaves, or `None` when
      one of them does not parse. */
  function Harvest(ing: Ingestor, ls: seq<Member>): (r: Option<Graph>)
    ensures r.Some? <==> forall i :: 0 <= i < |ls| ==> ParseLeaf(ing, ls[i]).Some?
    ensures r.Some? ==>
      forall tr :: tr in r.value <==> exists i :: 0 <= i < |ls| && tr in ParseLeaf(ing, ls[i]).value
  {
    if |ls| == 0 then Some({})
    else
      match ParseLeaf(ing, ls[0])
      case None => None
      case Some(h) =>
        (match Harvest(ing, ls[1..])
         case None => None
         case Some(rest) =>
           assert forall i :: 1 <= i < |ls| ==> ls[i] == ls[1..][i - 1];
           Some(h + rest))
  }

  /** What an entry adds to the instance graph when it is processed without
      error. */
  function Contribution(ing: Ingestor, m: Member): Option<Graph>
  {
    match Leaves(m)
    case Failure(_) => None
    case Success(ls) => Harvest(ing, ls)
  }

  lemma {:induction false} HarvestAppend(ing: Ingestor, a: seq<Member>, b: seq<Member>)
    ensures Harvest(ing, a + b).Some? <==> Harvest(ing, a).Some? && Harvest(ing, b).Some?
    ensures Harvest(ing, a + b).Some? ==>
      Harvest(ing, a + b).value == Harvest(ing, a).value + Harvest(ing, b).value
  {
    if |a| > 0 {
      assert (a + b)[1..] == a[1..] + b;
      assert (a + b)[0] == a[0];
      HarvestAppend(ing, a[1..], b);
    } else {
      assert a + b == b;
    }
  }

  /** Processing an entry adds exactly its leaves' relabelled triples to the
      running graph, and succeeds exactly when no archive inside it is corrupt
      and every leaf parses. */
  lemma {:induction false} IngestEntryIsUnionOfLeaves(ing: Ingestor, g: Graph, m: Member)
    ensures IngestEntry(ing, g, m).Success? <==> Contribution(ing, m).Some?
    ensures IngestEntry(ing, g, m).Success? ==> IngestEntry(ing, g, m).value == g + Contribution(ing, m).value
    decreases m, 1, 0
  {
    match Classify(m.name)
    case Archive =>
      if m.blob.archive.Readable? {
        IngestMembersIsUnionOfLeaves(ing, g, m, 0);
      }
    case Leaf(_) =>
      assert Leaves(m) == Success([m]);
      assert [m][1..] == [];
    case Unsupported =>
  }

  lemma {:induction false} IngestMembersIsUnionOfLeaves(ing: Ingestor, g: Graph, parent: Member, i: nat)
    requires parent.blob.archive.Readable? && i <= |MembersOf(parent)|
    ensures IngestMembers(ing, g, parent, i).Success? <==>
      LeavesOf(parent, i).Success? && Harvest(ing, LeavesOf(parent, i).value).Some?
    ensures IngestMembers(ing, g, parent, i).Success? ==>
      IngestMembers(ing, g, parent, i).value == g + Harvest(ing, LeavesOf(parent, i).value).value
    decreases parent, 0, |MembersOf(parent)| - i
  {
    if i < |MembersOf(parent)| {
      var m := MembersOf(parent)[i];
      assert m in parent.blob.archive.members;
      IngestEntryIsUnionOfLeaves(ing, g, m);
      match IngestEntry(ing, g, m)
      case Failure(_) =>
        if LeavesOf(parent, i).Success? {
          HarvestAppend(ing, Leaves(m).value, LeavesOf(parent, i + 1).value);
        }
      case Success(g1) =>
        IngestMembersIsUnionOfLeaves(ing, g1, parent, i + 1);
        if LeavesOf(parent, i).Success? {
          HarvestAppend(ing, Leaves(m).value, LeavesOf(parent, i + 1).value);
        }
    }
  }

  /** Re-ingesting is a no-op: processing an entry again after it succeeded
      changes nothing. */
  lemma ReingestIsNoOp(ing: Ingestor, g: Graph, m: Member)
    requires IngestEntry(ing, g, m).Success?
    ensures IngestEntry(ing, IngestEntry(ing, g, m).value, m) == IngestEntry(ing, g, m)
  {
    var g1 := IngestEntry(ing, g, m).value;
    IngestEntryIsUnionOfLeaves(ing, g, m);
    IngestEntryIsUnionOfLeaves(ing, g1, m);
  }

  /** Two entries processed in either order give the same graph. */
  lemma EntriesCommute(ing: Ingestor, g: Graph, m1: Member, m2: Member)
    requires IngestEntry(ing, g, m1).Success? && IngestEntry(ing, g, m2).Success?
    ensures IngestEntry(ing, IngestEntry(ing, g, m1).value, m2) ==
            IngestEntry(ing, IngestEntry(ing, g, m2).value, m1)
  {
    var g1 := IngestEntry(ing, g, m1).value;
    var g2 := IngestEntry(ing, g, m2).value;
    IngestEntryIsUnionOfLeaves(ing, g, m1);
    IngestEntryIsUnionOfLeaves(ing, g, m2);
    var c1 := Contribution(ing, m1).value;
    var c2 := Contribution(ing, m2).value;
    IngestEntryIsUnionOfLeaves(ing, g1, m2);
    IngestEntryIsUnionOfLeaves(ing, g2, m1);
    assert g1 + c2 == g2 + c1;
  }

  /** What a selected path contributes: `None` when it cannot be read or
      processing it raises. */
  function FileContribution(ing: Ingestor, files: map<string, Blob>, path: string): Option<Graph>
  {
    if path in files then Contribution(ing, Member(path, files[path])) else None
  }

  /** Path `p` contributes triple `tr`. */
  predicate Contributes(ing: Ingestor, files: map<string, Blob>, p: string, tr: Triple)
  {
    FileContribution(ing, files, p).Some? && tr in FileContribution(ing, files, p).value
  }

  /** The run over the selected files succeeds exactly when every path
      contributes. */
  lemma {:induction false} IngestFilesSucceeds(ing: Ingestor, files: map<string, Blob>, g: Graph, paths: seq<string>)
    ensures IngestFiles(ing, files, g, paths).Success? <==>
      forall p :: p in paths ==> FileContribution(ing, files, p).Some?
    decreases |paths|
  {
    if |paths| > 0 {
      var rest := paths[1..];
      assert forall p :: p in paths <==> p == paths[0] || p in rest;
      if paths[0] in files {
        var m := Member(paths[0], files[paths[0]]);
        IngestEntryIsUnionOfLeaves(ing, g, m);
        assert FileContribution(ing, files, paths[0]) == Contribution(ing, m);
        match IngestEntry(ing, g, m)
        case Failure(_) =>
          assert FileContribution(ing, files, paths[0]).None?;
        case Success(g1) =>
          assert IngestFiles(ing, files, g, paths) == IngestFiles(ing, files, g1, rest);
          IngestFilesSucceeds(ing, files, g1, rest);
      } else {
        assert FileContribution(ing, files, paths[0]).None?;
      }
    }
  }

  /** A successful run leaves the starting triples and every path's
      contribution in the graph, and nothing else. */
  lemma {:induction false} IngestFilesIsUnion(ing: Ingestor, files: map<string, Blob>, g: Graph, paths: seq<string>)
    requires IngestFiles(ing, files, g, paths).Success?
    ensures forall tr :: tr in IngestFiles(ing, files, g, paths).value <==>
      tr in g || exists p :: p in paths && Contributes(ing, files, p, tr)
    decreases |paths|
  {
    if |paths| > 0 {
      var rest := paths[1..];
      var m := Member(paths[0], files[paths[0]]);
      IngestEntryIsUnionOfLeaves(ing, g, m);
      var g1 := IngestEntry(ing, g, m).value;
      var c0 := FileContribution(ing, files, paths[0]).value;
      assert g1 == g + c0;
      assert IngestFiles(ing, files, g, paths) == IngestFiles(ing, files, g1, rest);
      IngestFilesIsUnion(ing, files, g1, rest);
      var r := IngestFiles(ing, files, g, paths).value;
      forall tr
        ensures tr in r <==> tr in g || exists p :: p in paths && Contributes(ing, files, p, tr)
      {
        if exists p :: p in paths && Contributes(ing, files, p, tr) {
          var p :| p in paths && Contributes(ing, files, p, tr);
          if p != paths[0] {
            assert p in rest;
          }
        }
        if tr in r && tr !in g && tr in c0 {
          assert Contributes(ing, files, paths[0], tr);
        }
      }
    }
  }

  /** The merged instance graph does not depend on the order of the selected
      files nor on repeats among them: two selections naming the same set of
      paths both succeed or both fail, and give the same graph. */
  lemma IngestFilesOrderIndependent(ing: Ingestor, files: map<string, Blob>, g: Graph, p1: seq<string>, p2: seq<string>)
    requires forall p :: p in p1 <==> p in p2
    ensures IngestFiles(ing, files, g, p1).Success? <==> IngestFiles(ing, files, g, p2).Success?
    ensures IngestFiles(ing, files, g, p1).Success? ==>
      IngestFiles(ing, files, g, p1).value == IngestFiles(ing, files, g, p2).value
  {
    IngestFilesSucceeds(ing, files, g, p1);
    IngestFilesSucceeds(ing, files, g, p2);
    if IngestFiles(ing, files, g, p1).Success? {
      IngestFilesIsUnion(ing, files, g, p1);
      IngestFilesIsUnion(ing, files, g, p2);
    }
  }

  /** The extension only decides WHETHER a leaf is parsed, not how: two RDF
      leaves with the same bytes, one named `.ttl` and one `.xml`, meet the
      same parser call and yield the same triples. */
  lemma FormatDoesNotSelectParser(ing: Ingestor, g: Graph, n1: string, n2: string, b: Blob)
    requires Classify(n1).Leaf? && Classify(n2).Leaf?
    ensures IngestEntry(ing, g, Member(n1, b)).Success? <==> IngestEntry(ing, g, Member(n2, b)).Success?
    ensures IngestEntry(ing, g, Member(n1, b)).Success? ==>
      IngestEntry(ing, g, Member(n1, b)).value == IngestEntry(ing, g, Member(n2, b)).value
  {
    assert ParseLeaf(ing, Member(n1, b)) == ParseLeaf(ing, Member(n2, b));
  }

  const XSD_STRING: string := "http://www.w3.org/2001/XMLSchema#string"
  const XSD_INTEGER: string := "http://www.w3.org/2001/XMLSchema#integer"

  /** An entry such as `notes.txt` is skipped without error. */
  lemma NotesTxtSkipped(ing: Ingestor, g: Graph, b: Blob)
    ensures IngestEntry(ing, g, Member("notes.txt", b)) == Success(g)
  {
    var ext := ".txt";
    assert Paths.Lower(ext) == ext by {
      forall k | 0 <= k < |ext| ensures Paths.LowerChar(ext[k]) == ext[k] {
      }
    }
    assert "notes.txt" == "" + "notes" + ext;
    assert "notes"[0] != '.';
    ClassifyJoined("", "notes", ext);
  }

  /** `a.xml` takes the RDF/XML branch. */
  lemma ClassifyAXml()
    ensures Classify("a.xml") == Leaf(RdfXml)
  {
    var ext := ".xml";
    assert Paths.Lower(ext) == ext by {
      forall k | 0 <= k < |ext| ensures Paths.LowerChar(ext[k]) == ext[k] {
      }
    }
    assert "a.xml" == "" + "a" + ext;
    assert "a"[0] != '.';
    ClassifyJoined("", "a", ext);
  }

  /** A plain literal on a sheet-mapped property is retyped, and its lexical
      form normalised for the new datatype. */
  lemma RelabelIntegerLiteral(table: Table, norm: Normalizer)
    requires table == [Row("urn:p", XSD_INTEGER)] && norm("05", XSD_INTEGER) == "5"
    ensures RelabelAll([RawTriple(NamedNode("urn:s"), NamedNode("urn:p"), RawLiteral("05", XSD_STRING, None))], table, norm) ==
      {Triple(IRI("urn:s"), IRI("urn:p"), Lit("5", Some(XSD_INTEGER), None))}
  {
    var t := RawTriple(NamedNode("urn:s"), NamedNode("urn:p"), RawLiteral("05", XSD_STRING, None));
    assert Lookup(table, "urn:p") == Some(XSD_INTEGER);
    assert RelabelTriple(t, table, norm) == Triple(IRI("urn:s"), IRI("urn:p"), Lit("5", Some(XSD_INTEGER), None));
    RelabelAllSnoc([], t, table, norm);
    assert [] + [t] == [t];
    assert RelabelAll([], table, norm) == {};
  }

  /** The parser call for `a.xml` and the typing pass over its one triple. */
  lemma AXmlParses(ing: Ingestor, bytes: seq<bv8>)
    requires ing.table == [Row("urn:p", XSD_INTEGER)] && ing.norm("05", XSD_INTEGER) == "5"
    requires ing.parse(ParseRequest(bytes, RDF_XML_MIME, CIM16_BASE)) ==
      Some([RawTriple(NamedNode("urn:s"), NamedNode("urn:p"), RawLiteral("05", XSD_STRING, None))])
    ensures ParseLeaf(ing, Member("a.xml", Blob(bytes, Unreadable))) ==
      Some({Triple(IRI("urn:s"), IRI("urn:p"), Lit("5", Some(XSD_INTEGER), None))})
  {
    var m := Member("a.xml", Blob(bytes, Unreadable));
    RelabelIntegerLiteral(ing.table, ing.norm);
    assert LeafRequest(m.blob) == ParseRequest(bytes, RDF_XML_MIME, CIM16_BASE);
    assert AllConvertible(ing.parse(LeafRequest(m.blob)).value);
  }

  /** End to end: an RDF/XML file whose only triple carries the plain literal
      "05" on a property the sheet types as xsd:integer yields that triple
      with the literal retyped and stored as "5". */
  lemma TypedLiteralScenario(ing: Ingestor, bytes: seq<bv8>)
    requires ing.table == [Row("urn:p", XSD_INTEGER)] && ing.norm("05", XSD_INTEGER) == "5"
    requires ing.parse(ParseRequest(bytes, RDF_XML_MIME, CIM16_BASE)) ==
      Some([RawTriple(NamedNode("urn:s"), NamedNode("urn:p"), RawLiteral("05", XSD_STRING, None))])
    ensures IngestEntry(ing, {}, Member("a.xml", Blob(bytes, Unreadable))) ==
      Success({Triple(IRI("urn:s"), IRI("urn:p"), Lit("5", Some(XSD_INTEGER), None))})
  {
    var expected := Triple(IRI("urn:s"), IRI("urn:p"), Lit("5", Some(XSD_INTEGER), None));
    ClassifyAXml();
    AXmlParses(ing, bytes);
    var empty: Graph := {};
    assert empty + {expected} == {expected};
  }

  /** A recognised leaf whose parsed stream holds a language-tagged literal
      ends the run with `ParseFailed`, whatever else the stream holds. */
  lemma LanguageTagEndsRun(ing: Ingestor, g: Graph, m: Member, i: nat)
    requires Classify(m.name).Leaf?
    requires ing.parse(LeafRequest(m.blob)).Some?
    requires i < |ing.parse(LeafRequest(m.blob)).value|
    requires ing.parse(LeafRequest(m.blob)).value[i].o.RawLiteral?
    requires ing.parse(LeafRequest(m.blob)).value[i].o.language.Some?
    ensures IngestEntry(ing, g, m) == Failure(ParseFailed(m.name))
  {
    assert !Convertible(ing.parse(LeafRequest(m.blob)).value[i]);
  }
}

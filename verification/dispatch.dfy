/**
 * Per-entry dispatch: the lower-cased extension of an entry's name decides
 * whether it is opened as an archive, parsed as RDF, or skipped.
 */
module Dispatch {
  import opened Wrappers
  import opened Paths

  /** The serialisation an extension is mapped to. */
  datatype RdfFormat = RdfXml | Turtle

  /** What ingestion does with an entry. */
  datatype EntryKind = Archive | Leaf(format: RdfFormat) | Unsupported

  /** The extension-to-format table (compared case-sensitively). */
  const ExtensionFormats: map<string, RdfFormat> :=
    map[".xml" := RdfXml, ".rdf" := RdfXml, ".ttl" := Turtle]

  /** The archive extensions (compared after lower-casing). */
  const ArchiveExtensions: seq<string> := [".zip", ".cimx"]

  /** `get_format_from_extension`: a dictionary lookup, `None` when absent. */
  function GetFormatFromExtension(ext: string): (r: Option<RdfFormat>)
    ensures r == Some(RdfXml) <==> ext == ".xml" || ext == ".rdf"
    ensures r == Some(Turtle) <==> ext == ".ttl"
    ensures r == None <==> ext != ".xml" && ext != ".rdf" && ext != ".ttl"
  {
    if ext in ExtensionFormats then Some(ExtensionFormats[ext]) else None
  }

  /** `is_supported_archive`: lower-cases its argument itself. */
  function IsSupportedArchive(ext: string): (r: bool)
    ensures r <==> Lower(ext) == ".zip" || Lower(ext) == ".cimx"
  {
    Lower(ext) in ArchiveExtensions
  }

  /** The extension an entry is dispatched on: `splitext`, then `lower()`. */
  function Extension(name: string): string
  {
    Lower(SplitExt(name).1)
  }

  /** The branch `process_entry_content` takes for an entry name, stated on
      its lower-cased extension: `.zip`/`.cimx` open an archive, `.xml`/`.rdf`
      and `.ttl` are RDF leaves, anything else is skipped. */
  function Classify(name: string): (k: EntryKind)
    ensures k == Archive <==> Extension(name) == ".zip" || Extension(name) == ".cimx"
    ensures k == Leaf(RdfXml) <==> Extension(name) == ".xml" || Extension(name) == ".rdf"
    ensures k == Leaf(Turtle) <==> Extension(name) == ".ttl"
    ensures k == Unsupported <==> Extension(name) !in {".zip", ".cimx", ".xml", ".rdf", ".ttl"}
  {
    var ext := Extension(name);
    LowerIdempotent(SplitExt(name).1);
    if IsSupportedArchive(ext) then Archive
    else match GetFormatFromExtension(ext)
      case Some(f) => Leaf(f)
      case None => Unsupported
  }

  /** Dispatch of a name written as directory + stem + extension, stated in
      terms of the extension alone: archives by `.zip`/`.cimx`, RDF/XML by
      `.xml`/`.rdf`, Turtle by `.ttl`, in any letter case; everything else is
      skipped. */
  lemma ClassifyJoined(dir: string, stem: string, ext: string)
    requires dir == [] || dir[|dir| - 1] == '/'
    requires forall k :: 0 <= k < |stem| ==> stem[k] != '/'
    requires exists k :: 0 <= k < |stem| && stem[k] != '.'
    requires |ext| >= 1 && ext[0] == '.'
    requires forall k :: 1 <= k < |ext| ==> ext[k] != '.' && ext[k] != '/'
    ensures Classify(dir + stem + ext) == Archive <==> Lower(ext) in {".zip", ".cimx"}
    ensures Classify(dir + stem + ext) == Leaf(RdfXml) <==> Lower(ext) in {".xml", ".rdf"}
    ensures Classify(dir + stem + ext) == Leaf(Turtle) <==> Lower(ext) == ".ttl"
    ensures Classify(dir + stem + ext) == Unsupported <==>
      Lower(ext) !in {".zip", ".cimx", ".xml", ".rdf", ".ttl"}
  {
    SplitExtOfJoin(dir, stem, ext);
    LowerIdempotent(ext);
  }

  /** A name without an extension (including a hidden file such as `dir/.zip`
      and a directory entry `dir/`) is always skipped. */
  lemma NoExtensionIsSkipped(name: string)
    requires SplitExt(name).1 == []
    ensures Classify(name) == Unsupported
  {
  }

  lemma LastIndexOfLower(s: string, c: char)
    requires c == '/' || c == '.'
    ensures LastIndex(Lower(s), c) == LastIndex(s, c)
    decreases |s|
  {
    if |s| > 0 {
      assert Lower(s)[..|s| - 1] == Lower(s[..|s| - 1]);
      LastIndexOfLower(s[..|s| - 1], c);
    }
  }

  /** Lower-casing a whole name commutes with taking its extension. */
  lemma LowerSuffix(p: string, i: nat)
    requires i <= |p|
    ensures Lower(p)[i..] == Lower(p[i..])
  {
  }

  /** Lower-casing keeps every dot where it is and adds none. */
  lemma LowerKeepsDots(p: string)
    ensures forall k :: 0 <= k < |p| ==> (Lower(p)[k] != '.' <==> p[k] != '.')
  {
  }

  lemma {:induction false} SplitExtOfLower(p: string)
    ensures SplitExt(Lower(p)).1 == Lower(SplitExt(p).1)
  {
    var q := Lower(p);
    LastIndexOfLower(p, '/');
    LastIndexOfLower(p, '.');
    var sep := LastIndex(p, '/');
    var dot := LastIndex(p, '.');
    LowerKeepsDots(p);
    assert HasStem(q, sep, dot) == HasStem(p, sep, dot);
    if dot > sep && HasStem(p, sep, dot) {
      LowerSuffix(p, dot);
    }
  }

  /** Dispatch is case-insensitive in the whole name: `MODEL.XML` is handled
      exactly like `model.xml`. */
  lemma ClassifyIgnoresCase(name: string)
    ensures Classify(Lower(name)) == Classify(name)
  {
    SplitExtOfLower(name);
    LowerIdempotent(SplitExt(name).1);
  }
}

# ModShape core, modelled in Dafny

ModShape validates CIM (IEC Common Information Model) instance data against
SHACL shapes. This project models the ingestion core of its main window class
(`application/ModShape.py`). It covers three parts.

- **Instance data.** Every selected file is read and dispatched on its
  lower-cased `os.path.splitext` extension.
  - `.zip`/`.cimx` entries are opened as archives and their members are
    processed recursively, in archive order.
  - `.xml`/`.rdf`/`.ttl` entries are parsed. Every one of them gets the same
    call: `application/rdf+xml` with the CIM16 base IRI.
  - Everything else is skipped.
  - Parsed triples go through a literal-typing pass. Subjects, predicates
    and non-literal objects become IRIs of their string form. A literal's
    datatype is taken from the first row of the "RDFS Datatypes" sheet whose
    `Property` equals the predicate (the cell in the sheet's second column),
    or is the parser's datatype when no row matches. The graph library
    stores the literal in its normal lexical form for that datatype.
  - A language-tagged literal cannot pass: the parser reports it with the
    datatype `rdf:langString`, and the graph library refuses a literal given
    both a datatype and a language. The error ends the run.
  - The result is unioned into the merged instance graph.
- **The constraint loader the OK button runs** (`process_shacl_iterator`).
  - An `owl:imports` triple opens its object as a local file and recurses
    into it. There is no visited set, and the graph is unioned with itself
    after each import.
  - Every other triple is converted and added. This conversion drops a
    literal's language tag.
- **The visited-set import resolver** (`load_owl_imports`).
  - URL targets are fetched over HTTP. Any other target is handed to the
    graph library's `parse(location)`, which reads a file path and resolves
    any other string as a URI.
  - Each import target is inserted into a shared visited set before it is
    loaded. The root is not inserted, so a cycle back to the root loads it a
    second time.

Modules, one per file:

| module | file | what it holds |
|---|---|---|
| `Wrappers` | wrappers.dfy | `Option`, `Result` |
| `Rdf` | rdf.dfy | parser terms (`RawTerm`), graph terms (`Term`), triples, `Graph = set<Triple>` |
| `Paths` | paths.dfy | ASCII `lower()`, POSIX `splitext` |
| `Dispatch` | dispatch.dfy | the extension tables and the per-entry branch |
| `DatatypeTable` | datatype_table.dfy | the sheet rows and their first-match lookup |
| `Relabel` | relabel.dfy | `process_iterator` |
| `Ingest` | ingest.dfy | `process_entry_content`, `process_instance_data_contents` |
| `ShaclIterator` | shacl_iterator.dfy | `process_shacl_iterator` |
| `OwlImports` | owl_imports.dfy | `is_url`, `load_owl_imports` |

Several things the code calls into are parameters of the model rather than
behaviour.

- **The streaming parser** is a function from a `ParseRequest` (bytes, MIME
  type, base IRI) to an optional triple sequence. `None` stands for an
  exception.
- **The zip reader's view of some bytes** is stored with the bytes as an
  `ArchiveView`: the members in archive order, or `Unreadable`.
- **The file system and the network.** Reading, fetching and parsing a target
  are maps from names to contents, and a missing key stands for an exception.
  Parsing is therefore pure: the same input always yields the same triples,
  blank-node identifiers included.
- **Lexical normalisation.** The graph library's rewriting of a literal's
  lexical form for its datatype (`"05"` as `xsd:integer` is stored as `"5"`)
  is a function `Normalizer` from lexical form and datatype to the stored
  form.
- **Exceptions** are `Failure` values that end the run.

Some behaviours of the code are easy to miss.

- The resolver has no exemption for the SHACL core namespace. Such an import
  is fetched like any other (`OwlImports.CoreNamespaceIsFetched`).
- A failing import or file is not skipped: the first exception ends the run.
- The root is not placed in the visited set before its imports are followed
  (`OwlImports.EachTargetLoadedOnce`).
- The extension decides only whether a leaf is parsed, not how: a `.ttl`
  leaf gets the same RDF/XML parser call as an `.xml` one
  (`Ingest.FormatDoesNotSelectParser`).
- When several sheet rows name the same property, the first one decides
  (`DatatypeTable.FirstRowWins`).
- A language-tagged literal ends instance ingestion
  (`Ingest.LanguageTagEndsRun`). The constraint loader instead drops the tag.

## Model

| member | source | states |
|---|---|---|
| Paths.Lower | application/ModShape.py:141-142 | lower-casing keeps the length and lower-cases each character in place |
| Paths.LowerIdempotent | application/ModShape.py:77-80 | lower-casing an extension that is already lower-cased changes nothing, so the second `lower()` in the archive test is harmless |
| Paths.SplitExt | application/ModShape.py:141 | `splitext` cuts the name into a prefix and an extension that concatenate back to the name; the extension is empty or a dot followed by neither a dot nor a separator |
| Paths.ExtensionExists | application/ModShape.py:141 | a name has an extension exactly when its last path component has a non-dot character followed later by a dot (a hidden file such as `.zip` has none) |
| Paths.SplitExtOfJoin | application/ModShape.py:141 | for a directory ending in '/', a stem without '/' that is not all dots, and an extension '.'+non-dots, `splitext` recovers exactly that stem and extension |
| Dispatch.GetFormatFromExtension | application/ModShape.py:65-74 | `.xml` and `.rdf` give RDF/XML, `.ttl` gives Turtle, and any other string (including upper-case forms) gives None |
| Dispatch.IsSupportedArchive | application/ModShape.py:76-80 | true exactly when the lower-cased extension is `.zip` or `.cimx` |
| Dispatch.Classify | application/ModShape.py:141-153 | the branch is an archive exactly for lower-cased extension `.zip`/`.cimx`, an RDF/XML leaf for `.xml`/`.rdf`, a Turtle leaf for `.ttl`, and skipped for anything else |
| Dispatch.ClassifyJoined | application/ModShape.py:141-153 | for a name built as dir+stem+ext: archive exactly for `.zip`/`.cimx`, RDF leaf exactly for `.xml`/`.rdf`/`.ttl`, skipped exactly otherwise, in any letter case |
| Dispatch.NoExtensionIsSkipped | application/ModShape.py:141-153 | a name without an extension (a directory entry, a hidden file) is skipped |
| Dispatch.SplitExtOfLower | application/ModShape.py:141-142 | taking the extension of a lower-cased name equals lower-casing its extension |
| Dispatch.ClassifyIgnoresCase | application/ModShape.py:141-153 | the branch taken for a name equals the branch taken for the lower-cased name |
| DatatypeTable.Lookup | application/ModShape.py:94-98 | the result is None exactly when no row names the predicate; otherwise it is the datatype of a row naming it, and no earlier row names it |
| DatatypeTable.FirstRowWins | application/ModShape.py:94-98 | with duplicate rows for a predicate, the earliest one decides, whatever follows |
| Relabel.RelabelTriple | application/ModShape.py:86-101 | subject and predicate become IRIs of their values; a non-literal object becomes an IRI; a literal has a datatype and its lexical form normalised for that datatype |
| Relabel.RelabelAll | application/ModShape.py:84-106 | the local graph holds the converted form of every parsed triple, and nothing else |
| Relabel.RelabelledDatatype | application/ModShape.py:90-99 | a literal's datatype is d exactly when the first sheet row for its predicate says d, or no row names the predicate and the parser said d |
| Relabel.MappedPredicateTyped | application/ModShape.py:94-99 | after the pass, every literal under a predicate the sheet maps to d carries d |
| Relabel.RelabelAllOfSameTriples | application/ModShape.py:82-108 | the local graph depends only on the set of parsed triples, not their order or repeats |
| Relabel.NormalisedLiteralsMerge | application/ModShape.py:94-106 | two literals under one subject and sheet-mapped predicate whose lexical forms normalise alike for the mapped datatype become one triple |
| Relabel.ProcessIterator | application/ModShape.py:82-108 | the pass fails exactly when the stream holds a language-tagged literal, and otherwise returns the converted triples of the whole stream |
| Ingest.ParseLeaf | application/ModShape.py:188-195 | a leaf yields a graph exactly when the fixed RDF/XML parser call succeeds and no parsed literal is language-tagged; the graph then holds exactly the converted parsed triples |
| Ingest.IngestEntry | application/ModShape.py:138-208 | a skipped entry leaves the graph unchanged; a successful one only adds triples |
| Ingest.IngestMembers | application/ModShape.py:143-149 | processing an archive's members only adds triples to the graph |
| Ingest.IngestFiles | application/ModShape.py:210-214 | processing the selected files only adds triples to the graph |
| Ingest.IngestEntryIsUnionOfLeaves | application/ModShape.py:138-208 | an entry succeeds exactly when no archive inside it is corrupt and every RDF leaf in it parses, and it then adds exactly the union of its leaves' relabelled graphs |
| Ingest.IngestMembersIsUnionOfLeaves | application/ModShape.py:143-149 | the member loop succeeds exactly when every later member's leaves parse, and adds exactly their relabelled graphs |
| Ingest.ReingestIsNoOp | application/ModShape.py:205 | processing an entry again after it succeeded gives the same graph |
| Ingest.EntriesCommute | application/ModShape.py:205 | two successfully processed entries give the same graph in either order |
| Ingest.IngestFilesSucceeds | application/ModShape.py:210-214 | the run over the selected paths succeeds exactly when every path is readable and processes without error |
| Ingest.IngestFilesIsUnion | application/ModShape.py:210-214 | a successful run's graph holds exactly the starting triples and the triples some selected path contributes |
| Ingest.IngestFilesOrderIndependent | application/ModShape.py:210-214 | two selections naming the same paths (any order, any repeats) both succeed or both fail, with the same graph |
| Ingest.FormatDoesNotSelectParser | application/ModShape.py:150-153 | two RDF leaves with the same bytes, whatever their recognised extensions (`.ttl` or `.xml`), give the same outcome |
| Ingest.NotesTxtSkipped | application/ModShape.py:141-153 | `notes.txt` is skipped without error and the graph is unchanged |
| Ingest.TypedLiteralScenario | application/ModShape.py:188-205 | `a.xml` with one plain literal "05" under a predicate the sheet types xsd:integer yields exactly that triple with the literal typed xsd:integer and stored as "5" |
| Ingest.LanguageTagEndsRun | application/ModShape.py:96-99 | a recognised leaf whose parsed stream holds a language-tagged literal fails with a parse error |
| ShaclIterator.ConvertTriple | application/ModShape.py:122-129 | a non-import triple becomes IRIs for subject and predicate, an IRI for a non-literal object, and a literal with the parser's datatype, its lexical form normalised for it, and no language |
| ShaclIterator.ProcessShacl | application/ModShape.py:110-136 | a successful pass keeps the incoming graph and opened-file log as a prefix, adds no `owl:imports` triple, and contains every non-import triple of the stream |
| ShaclIterator.Unfold | application/ModShape.py:114-134 | when the import tree unfolds, every import target opened and unfolded one level deeper, and the result holds every converted non-import triple and every imported file's unfolded triples |
| ShaclIterator.UnfoldOnlyTreeTriples | application/ModShape.py:114-134 | every triple of the unfolded graph is a converted non-import triple of the document or comes from an imported file's unfolding |
| ShaclIterator.ProcessShaclIsUnfold | application/ModShape.py:110-136 | a pass started from graph g fails exactly when the import-tree unfolding fails, with the same error, and otherwise ends with g plus the unfolded graph |
| ShaclIterator.StartGraphOnlyAdded | application/ModShape.py:110-136 | a pass started from graph g fails exactly when the same pass started from the empty graph fails, with the same error, and otherwise ends with g plus that pass's graph and the same opened-file log; the self-union after an import adds nothing |
| ShaclIterator.MoreDepthSameRun | application/ModShape.py:114-121 | a pass that finishes within some recursion depth finishes identically with more depth |
| ShaclIterator.SelfImportNeverTerminates | application/ModShape.py:114-121 | a file whose first triple imports itself always runs into the recursion limit |
| ShaclIterator.DiamondOpensSharedFileTwice | application/ModShape.py:114-134 | with two imports sharing a third file, that file is opened twice and its `rdf:langString` literal appears once, without its language tag |
| OwlImports.IsUrl | application/ModShape.py:327-330 | a path is a URL exactly when it begins with `http` followed by `://` or `s://` |
| OwlImports.UrlSchemeIsCaseSensitive | application/ModShape.py:327-330 | `https://…` is a URL; `HTTP://…` and a bare file name are not |
| OwlImports.Fetch | application/ModShape.py:340-347 | a URL is looked up on the web and fails with an HTTP error; anything else goes to the library's location parse and fails with a location error |
| OwlImports.Imports | application/ModShape.py:350-353 | the import targets are exactly the string values of the objects of `owl:imports` triples |
| OwlImports.Load | application/ModShape.py:332-365 | an unloadable target is the load's error; a successful load only grows the visited set, keeps its target's triples and fetches its target first |
| OwlImports.LoadAll | application/ModShape.py:352-363 | a successful import loop only grows the visited set, the graph and the fetch log |
| OwlImports.LoadOwlImports | application/ModShape.py:332-347 | an unloadable root is the run's error; a successful run fetches the root first and keeps all its triples |
| OwlImports.LoadGraph | application/ModShape.py:337-363 | one load's graph is its target's triples plus the triples of every target it newly visited, each of which loaded |
| OwlImports.LoadLog | application/ModShape.py:340-360 | one load fetches its own target once and each newly visited target once |
| OwlImports.LoadCloses | application/ModShape.py:350-360 | after a load, the imports of its target and of every newly visited target are visited |
| OwlImports.LoadLeast | application/ModShape.py:352-360 | a load visits nothing outside any import-closed set that holds its target's imports |
| OwlImports.LoadSucceeds | application/ModShape.py:340-363 | a load cannot fail when its target and an import-closed set of targets are all loadable |
| OwlImports.ResolvedSetIsImportClosure | application/ModShape.py:332-365 | the final visited set is the least import-closed set holding the root's imports, and all of it loaded |
| OwlImports.ResolvedGraph | application/ModShape.py:332-365 | the resolved graph is the root's triples plus the triples of every visited target |
| OwlImports.EachTargetLoadedOnce | application/ModShape.py:332-365 | every import target is fetched once; the root is fetched twice exactly when an import leads back to it |
| OwlImports.ResolvesWhenClosureLoadable | application/ModShape.py:332-365 | resolution succeeds whenever the root and an import-closed set holding its imports are all loadable |
| OwlImports.CoreNamespaceIsFetched | application/ModShape.py:340-360 | a root importing the SHACL namespace resolves only if that URL is fetchable, and it is then fetched |
| OwlImports.ThreeCycle | application/ModShape.py:352-363 | a ring of three files terminates, visits all three, and fetches the root twice and the others once |
| OwlImports.Diamond | application/ModShape.py:352-363 | with two imports sharing a fourth file, every file is fetched once |

## Left out

- The Qt user interface, file dialogs, the choice of selected files, and the timing and `print` output are not modelled.
- Reading the "RDFS Datatypes" sheet is not modelled: the model starts from its rows. With several sheet files, the last one read is the one used.
- With no sheet selected, the empty DataFrame has no `Property` column, and filtering it raises. The model treats an empty table as one that names no predicate.
- Parsing is modelled as a pure function of its input. The real parsers mint fresh blank-node identifiers on every parse, which the model cannot express.
- Ingest.ReingestIsNoOp: holds only for documents without blank nodes. Parsing an entry again renames its blank nodes, so a real re-ingest adds a renamed copy of its blank-node triples.
- Ingest.IngestFilesOrderIndependent: holds for repeats only when the repeated files have no blank nodes. A path selected twice is parsed twice, and its blank-node triples appear twice under different identifiers.
- OwlImports.ResolvedGraph: holds only for documents without blank nodes. A root loaded a second time through an import cycle contributes its blank-node triples a second time, renamed.
- OwlImports.LoadSucceeds: the interpreter's recursion limit is not modelled. `load_owl_imports` calls itself once per newly visited target, so an import chain deeper than that limit raises `RecursionError` in the program, while the lemma promises success.
- OwlImports.ResolvesWhenClosureLoadable: the interpreter's recursion limit is not modelled, so an import chain deeper than that limit raises `RecursionError` in the program, while the lemma promises success.
- Ingest.IngestEntry: nested archives carry no depth bound. The interpreter's recursion limit is not modelled, and an archive that contains itself cannot be expressed, since a member's view is a finite value.
- The normalisation table itself (which lexical forms each XSD datatype rewrites, and to what) is a parameter and is not modelled.
- The parser, the zip reader, the HTTP client and the Turtle reader are abstract inputs, and their own failure modes are summarised as a single failure value.
- Within an archive, a member name is taken to denote that member's own bytes. The zip reader resolves a duplicated name to its last entry, and this is not modelled.
- `os.path.splitext` is modelled in its POSIX form (separator '/'). Windows back-slash separators are not modelled.
- Paths.Lower: lower-cases ASCII letters only. This is exact for the five extensions compared, but other non-ASCII case mappings are not modelled.
- A graph is a set, so the order in which the store yields triples is not modelled. A document given to the resolver is a sequence, whose order fixes the order its imports are followed in.
- ShaclIterator.ProcessShacl: the interpreter's recursion limit is a depth bound, and running out of it is a `RecursionLimit` failure. The actual limit value is not modelled.
- The concurrent and commented-out loader variants, SHACL validation, and the other files of the application are not part of this model.

/**
 * Constraint-graph assembly by `owl:imports`: load a document, then load
 * every import target not yet in the shared visited set (inserting it first),
 * and union the loaded graphs. URL targets are fetched over the network,
 * everything else is handed to the graph library's own `parse(location)`,
 * which reads a file path from disk and resolves any other string as a URI;
 * any failure propagates.
 */
module OwlImports {
  import opened Wrappers
  import opened Rdf

  /** The documents the resolver can reach: the triples a successful HTTP
      fetch of a URL yields (`web`), and the triples the graph library's
      `parse(location)` yields for any other target (`byLocation`: a file
      path, or a string the library itself resolves as a URI), in the order
      the graph returns them. A target missing from its map is one whose
      fetch or parse raises. */
  datatype Env = Env(web: map<string, seq<Triple>>, byLocation: map<string, seq<Triple>>)

  /** Why loading a target raised. `HttpFailed` covers both a failed HTTP
      request and a Turtle parse error on the fetched text; `LocationFailed`
      covers both a failed read or URI resolution of the location and a parse
      error on what it yields. */
  datatype ImportError = HttpFailed(url: string) | LocationFailed(location: string)

  /** The state threaded through one resolution: the graph built so far, the
      shared visited set, and the targets loaded so far, in load order. */
  datatype Loaded = Loaded(graph: Graph, visited: set<string>, fetched: seq<string>)

  predicate StartsWith(s: string, prefix: string)
  {
    |prefix| <= |s| && s[..|prefix|] == prefix
  }

  /** `is_url`: a case-sensitive test of the two scheme prefixes. */
  function IsUrl(path: string): (r: bool)
    ensures r <==> (|path| >= 7 && path[..4] == "http" &&
                    (path[4..7] == "://" || (|path| >= 8 && path[4..8] == "s://")))
  {
    StartsWith(path, "http://") || StartsWith(path, "https://")
  }

  /** Only lower-case `http://` and `https://` count as URLs: an upper-case
      scheme or a bare file name goes to the graph library's `parse(location)`. */
  lemma UrlSchemeIsCaseSensitive()
    ensures IsUrl("https://example.org/shapes.ttl")
    ensures !IsUrl("HTTP://example.org/shapes.ttl")
    ensures !IsUrl("shapes.ttl")
  {
    var u := "https://example.org/shapes.ttl";
    assert u[..8] == "https://";
    assert StartsWith(u, "https://");
    assert "HTTP://example.org/shapes.ttl"[..4][0] == 'H';
    assert "shapes.ttl"[..4][0] == 's';
  }

  /** Loading one target: an HTTP fetch when it is a URL, the graph library's
      `parse(location)` otherwise. */
  function Fetch(env: Env, target: string): (r: Result<seq<Triple>, ImportError>)
    ensures IsUrl(target) ==> (r.Success? <==> target in env.web) && (r.Failure? ==> r.error == HttpFailed(target))
    ensures !IsUrl(target) ==> (r.Success? <==> target in env.byLocation) && (r.Failure? ==> r.error == LocationFailed(target))
    ensures r.Success? ==> r.value in env.web.Values + env.byLocation.Values
  {
    if IsUrl(target) then
      if target in env.web then Success(env.web[target]) else Failure(HttpFailed(target))
    else
      if target in env.byLocation then Success(env.byLocation[target]) else Failure(LocationFailed(target))
  }

  /** `objects(predicate=OWL.imports)` turned into strings, in graph order
      (repeats included). */
  function Imports(doc: seq<Triple>): (r: seq<string>)
    ensures forall u :: u in r <==>
      exists i :: 0 <= i < |doc| && doc[i].p == IRI(OWL_IMPORTS) && doc[i].o.value == u
  {
    if |doc| == 0 then []
    else
      var rest := Imports(doc[1..]);
      assert forall i :: 1 <= i < |doc| ==> doc[i] == doc[1..][i - 1];
      if doc[0].p == IRI(OWL_IMPORTS) then [doc[0].o.value] + rest else rest
  }

  /** Every import target any reachable document names. */
  function Targets(env: Env): set<string>
  {
    set d, u | d in env.web.Values + env.byLocation.Values && u in Imports(d) :: u
  }

  /** The termination measure: the targets not yet visited. */
  function Pending(env: Env, visited: set<string>): nat
  {
    |Targets(env) - visited|
  }

  lemma PendingDrops(env: Env, visited: set<string>, u: string)
    requires u in Targets(env) && u !in visited
    ensures Pending(env, visited + {u}) < Pending(env, visited)
  {
    assert Targets(env) - visited == (Targets(env) - (visited + {u})) + {u};
  }

  lemma SubsetCardinality<T>(a: set<T>, b: set<T>)
    requires a <= b
    ensures |a| <= |b|
  {
    if a != {} {
      var x :| x in a;
      SubsetCardinality(a - {x}, b - {x});
    }
  }

  lemma PendingMonotone(env: Env, v1: set<string>, v2: set<string>)
    requires v1 <= v2
    ensures Pending(env, v2) <= Pending(env, v1)
  {
    SubsetCardinality(Targets(env) - v2, Targets(env) - v1);
  }

  /** `load_owl_imports(target, visited)`. */
  function Load(env: Env, target: string, visited: set<string>): (r: Result<Loaded, ImportError>)
    ensures r.Success? ==> visited <= r.value.visited
    ensures Fetch(env, target).Failure? ==> r == Failure(Fetch(env, target).error)
    ensures r.Success? ==> Fetch(env, target).Success? && GraphOf(Fetch(env, target).value) <= r.value.graph
    ensures r.Success? ==> |r.value.fetched| > 0 && r.value.fetched[0] == target
    decreases Pending(env, visited), 1, 0
  {
    match Fetch(env, target)
    case Failure(e) => Failure(e)
    case Success(doc) =>
      assert forall u :: u in Imports(doc) ==> u in Targets(env);
      LoadAll(env, Imports(doc), Loaded(GraphOf(doc), visited, [target]))
  }

  /** The loop over a document's import targets. */
  function LoadAll(env: Env, imports: seq<string>, acc: Loaded): (r: Result<Loaded, ImportError>)
    requires forall u :: u in imports ==> u in Targets(env)
    ensures r.Success? ==> acc.visited <= r.value.visited
    ensures r.Success? ==> acc.graph <= r.value.graph && acc.fetched <= r.value.fetched
    decreases Pending(env, acc.visited), 0, |imports|
  {
    if |imports| == 0 then Success(acc)
    else
      var u := imports[0];
      if u in acc.visited then LoadAll(env, imports[1..], acc)
      else
        PendingDrops(env, acc.visited, u);
        match Load(env, u, acc.visited + {u})
        case Failure(e) => Failure(e)
        case Success(sub) =>
          PendingMonotone(env, acc.visited, sub.visited);
          LoadAll(env, imports[1..], Loaded(acc.graph + sub.graph, sub.visited, acc.fetched + sub.fetched))
  }

  /** The top-level call: `visited_files=None` starts from an empty set, so
      the root itself is not marked visited. An unloadable root is the run's
      error; a successful run loads the root first and keeps all its
      triples. */
  function LoadOwlImports(env: Env, root: string): (r: Result<Loaded, ImportError>)
    ensures Fetch(env, root).Failure? ==> r == Failure(Fetch(env, root).error)
    ensures r.Success? ==> Fetch(env, root).Success? && GraphOf(Fetch(env, root).value) <= r.value.graph
    ensures r.Success? ==> |r.value.fetched| > 0 && r.value.fetched[0] == root
  {
    Load(env, root, {})
  }

  // ---------------------------------------------------------------------
  // Reference notions: the import relation and the sets closed under it.

  /** The import targets of a loadable target (none when it cannot be loaded). */
  function ImportsOf(env: Env, x: string): set<string>
  {
    match Fetch(env, x)
    case Failure(_) => {}
    case Success(doc) => set u | u in Imports(doc)
  }

  /** The triples of a loadable target (none when it cannot be loaded). */
  function DocOf(env: Env, x: string): Graph
  {
    match Fetch(env, x)
    case Failure(_) => {}
    case Success(doc) => GraphOf(doc)
  }

  /** The union of the documents of a set of targets. */
  function DocsOf(env: Env, s: set<string>): Graph
  {
    set x, t | x in s && t in DocOf(env, x) :: t
  }

  /** `s` is closed under the import relation. */
  ghost predicate Closed(env: Env, s: set<string>)
  {
    forall x :: x in s ==> ImportsOf(env, x) <= s
  }

  ghost predicate AllLoadable(env: Env, s: set<string>)
  {
    forall x :: x in s ==> Fetch(env, x).Success?
  }

  lemma DocsOfUnion(env: Env, a: set<string>, b: set<string>)
    ensures DocsOf(env, a + b) == DocsOf(env, a) + DocsOf(env, b)
  {
  }

  lemma DocsOfSingleton(env: Env, x: string)
    ensures DocsOf(env, {x}) == DocOf(env, x)
  {
  }

  /** The graph of one `Load` call is its own document plus the documents of
      exactly the targets it newly visits, all of which load. */
  lemma {:induction false} LoadGraph(env: Env, t: string, v: set<string>)
    requires Load(env, t, v).Success?
    ensures Fetch(env, t).Success?
    ensures AllLoadable(env, Load(env, t, v).value.visited - v)
    ensures Load(env, t, v).value.graph == DocOf(env, t) + DocsOf(env, Load(env, t, v).value.visited - v)
    decreases Pending(env, v), 1, 0
  {
    var doc := Fetch(env, t).value;
    assert forall u :: u in Imports(doc) ==> u in Targets(env);
    LoadAllGraph(env, Imports(doc), Loaded(GraphOf(doc), v, [t]));
  }

  lemma {:induction false} LoadAllGraph(env: Env, imports: seq<string>, acc: Loaded)
    requires forall u :: u in imports ==> u in Targets(env)
    requires LoadAll(env, imports, acc).Success?
    ensures AllLoadable(env, LoadAll(env, imports, acc).value.visited - acc.visited)
    ensures LoadAll(env, imports, acc).value.graph ==
      acc.graph + DocsOf(env, LoadAll(env, imports, acc).value.visited - acc.visited)
    decreases Pending(env, acc.visited), 0, |imports|
  {
    if |imports| > 0 {
      var u := imports[0];
      var rest := imports[1..];
      assert forall w :: w in rest ==> w in imports;
      if u in acc.visited {
        LoadAllGraph(env, rest, acc);
      } else {
        var v1 := acc.visited + {u};
        PendingDrops(env, acc.visited, u);
        LoadGraph(env, u, v1);
        var sub := Load(env, u, v1).value;
        PendingMonotone(env, acc.visited, sub.visited);
        var acc' := Loaded(acc.graph + sub.graph, sub.visited, acc.fetched + sub.fetched);
        assert LoadAll(env, imports, acc) == LoadAll(env, rest, acc');
        LoadAllGraph(env, rest, acc');
        var r := LoadAll(env, rest, acc').value;
        CombineGraphs(env, acc.graph, acc.visited, u, sub, r);
      }
    }
  }

  /** The load log of one `Load` call: its own target once, then each newly
      visited target exactly once. */
  lemma {:induction false} LoadLog(env: Env, t: string, v: set<string>)
    requires Load(env, t, v).Success?
    ensures multiset(Load(env, t, v).value.fetched) == multiset{t} + multiset(Load(env, t, v).value.visited - v)
    decreases Pending(env, v), 1, 0
  {
    var doc := Fetch(env, t).value;
    assert forall u :: u in Imports(doc) ==> u in Targets(env);
    LoadAllLog(env, Imports(doc), Loaded(GraphOf(doc), v, [t]));
  }

  lemma {:induction false} LoadAllLog(env: Env, imports: seq<string>, acc: Loaded)
    requires forall u :: u in imports ==> u in Targets(env)
    requires LoadAll(env, imports, acc).Success?
    ensures multiset(LoadAll(env, imports, acc).value.fetched) ==
      multiset(acc.fetched) + multiset(LoadAll(env, imports, acc).value.visited - acc.visited)
    decreases Pending(env, acc.visited), 0, |imports|
  {
    if |imports| > 0 {
      var u := imports[0];
      var rest := imports[1..];
      assert forall w :: w in rest ==> w in imports;
      if u in acc.visited {
        LoadAllLog(env, rest, acc);
      } else {
        var v1 := acc.visited + {u};
        PendingDrops(env, acc.visited, u);
        LoadLog(env, u, v1);
        var sub := Load(env, u, v1).value;
        PendingMonotone(env, acc.visited, sub.visited);
        var acc' := Loaded(acc.graph + sub.graph, sub.visited, acc.fetched + sub.fetched);
        assert LoadAll(env, imports, acc) == LoadAll(env, rest, acc');
        LoadAllLog(env, rest, acc');
        var r := LoadAll(env, rest, acc').value;
        CombineLogs(acc.fetched, acc.visited, u, sub, r);
      }
    }
  }

  lemma DisjointUnionMultiset<T>(a: set<T>, b: set<T>)
    requires a !! b
    ensures multiset(a + b) == multiset(a) + multiset(b)
  {
  }

  /** The step of `LoadAllLog` for a newly visited target `u`. */
  lemma CombineLogs(fetched: seq<string>, v0: set<string>, u: string, sub: Loaded, r: Loaded)
    requires u !in v0 && v0 + {u} <= sub.visited <= r.visited
    requires multiset(sub.fetched) == multiset{u} + multiset(sub.visited - (v0 + {u}))
    requires multiset(r.fetched) == multiset(fetched + sub.fetched) + multiset(r.visited - sub.visited)
    ensures multiset(r.fetched) == multiset(fetched) + multiset(r.visited - v0)
  {
    var a := sub.visited - (v0 + {u});
    var b := r.visited - sub.visited;
    DisjointUnionMultiset({u}, a);
    DisjointUnionMultiset({u} + a, b);
    assert r.visited - v0 == {u} + a + b;
  }

  /** The step of `LoadAllGraph` for a newly visited target `u`. */
  lemma CombineGraphs(env: Env, g: Graph, v0: set<string>, u: string, sub: Loaded, r: Loaded)
    requires u !in v0 && v0 + {u} <= sub.visited <= r.visited
    requires Fetch(env, u).Success?
    requires AllLoadable(env, sub.visited - (v0 + {u})) && AllLoadable(env, r.visited - sub.visited)
    requires sub.graph == DocOf(env, u) + DocsOf(env, sub.visited - (v0 + {u}))
    requires r.graph == (g + sub.graph) + DocsOf(env, r.visited - sub.visited)
    ensures AllLoadable(env, r.visited - v0)
    ensures r.graph == g + DocsOf(env, r.visited - v0)
  {
    var a := sub.visited - (v0 + {u});
    var b := r.visited - sub.visited;
    assert r.visited - v0 == {u} + a + b;
    DocsOfUnion(env, {u} + a, b);
    DocsOfUnion(env, {u}, a);
    DocsOfSingleton(env, u);
  }

  /** Every import of the target of a `Load` call, and of every target it
      newly visits, ends up visited. */
  lemma {:induction false} LoadCloses(env: Env, t: string, v: set<string>)
    requires Load(env, t, v).Success?
    ensures ImportsOf(env, t) <= Load(env, t, v).value.visited
    ensures forall x :: x in Load(env, t, v).value.visited - v ==> ImportsOf(env, x) <= Load(env, t, v).value.visited
    decreases Pending(env, v), 1, 0
  {
    var doc := Fetch(env, t).value;
    assert forall u :: u in Imports(doc) ==> u in Targets(env);
    LoadAllCloses(env, Imports(doc), Loaded(GraphOf(doc), v, [t]));
  }

  lemma {:induction false} LoadAllCloses(env: Env, imports: seq<string>, acc: Loaded)
    requires forall u :: u in imports ==> u in Targets(env)
    requires LoadAll(env, imports, acc).Success?
    ensures forall u :: u in imports ==> u in LoadAll(env, imports, acc).value.visited
    ensures forall x :: x in LoadAll(env, imports, acc).value.visited - acc.visited ==>
      ImportsOf(env, x) <= LoadAll(env, imports, acc).value.visited
    decreases Pending(env, acc.visited), 0, |imports|, 1
  {
    if |imports| > 0 {
      if imports[0] in acc.visited {
        var rest := imports[1..];
        assert forall w :: w in imports <==> w == imports[0] || w in rest;
        LoadAllCloses(env, rest, acc);
      } else {
        LoadAllClosesFresh(env, imports, acc);
      }
    }
  }

  /** The step of `LoadAllCloses` for a target not yet visited. */
  lemma {:induction false} LoadAllClosesFresh(env: Env, imports: seq<string>, acc: Loaded)
    requires forall u :: u in imports ==> u in Targets(env)
    requires LoadAll(env, imports, acc).Success?
    requires |imports| > 0 && imports[0] !in acc.visited
    ensures forall u :: u in imports ==> u in LoadAll(env, imports, acc).value.visited
    ensures forall x :: x in LoadAll(env, imports, acc).value.visited - acc.visited ==>
      ImportsOf(env, x) <= LoadAll(env, imports, acc).value.visited
    decreases Pending(env, acc.visited), 0, |imports|, 0
  {
    var u := imports[0];
    var rest := imports[1..];
    var v1 := acc.visited + {u};
    PendingDrops(env, acc.visited, u);
    LoadCloses(env, u, v1);
    var sub := Load(env, u, v1).value;
    PendingMonotone(env, acc.visited, sub.visited);
    var acc' := Loaded(acc.graph + sub.graph, sub.visited, acc.fetched + sub.fetched);
    assert LoadAll(env, imports, acc) == LoadAll(env, rest, acc');
    LoadAllCloses(env, rest, acc');
    var r := LoadAll(env, rest, acc').value;
    assert sub.visited <= r.visited;
    forall w | w in imports ensures w in r.visited {
      if w != u {
        assert w in rest;
      }
    }
    forall x | x in r.visited - acc.visited ensures ImportsOf(env, x) <= r.visited {
      if x !in sub.visited {
        assert x in r.visited - acc'.visited;
      } else if x != u {
        assert x in sub.visited - v1;
      }
    }
  }

  /** The targets one `Load` call newly visits lie in every import-closed set
      holding its target's imports. */
  lemma {:induction false} LoadLeast(env: Env, t: string, v: set<string>, s: set<string>)
    requires Load(env, t, v).Success?
    requires Closed(env, s) && ImportsOf(env, t) <= s
    ensures Load(env, t, v).value.visited - v <= s
    decreases Pending(env, v), 1, 0
  {
    var doc := Fetch(env, t).value;
    assert forall u :: u in Imports(doc) ==> u in Targets(env) && u in ImportsOf(env, t);
    LoadAllLeast(env, Imports(doc), Loaded(GraphOf(doc), v, [t]), s);
  }

  lemma {:induction false} LoadAllLeast(env: Env, imports: seq<string>, acc: Loaded, s: set<string>)
    requires forall u :: u in imports ==> u in Targets(env)
    requires LoadAll(env, imports, acc).Success?
    requires Closed(env, s) && forall u :: u in imports ==> u in s
    ensures LoadAll(env, imports, acc).value.visited - acc.visited <= s
    decreases Pending(env, acc.visited), 0, |imports|
  {
    if |imports| > 0 {
      var u := imports[0];
      var rest := imports[1..];
      assert forall w :: w in rest ==> w in imports;
      if u in acc.visited {
        LoadAllLeast(env, rest, acc, s);
      } else {
        var v1 := acc.visited + {u};
        PendingDrops(env, acc.visited, u);
        LoadLeast(env, u, v1, s);
        var sub := Load(env, u, v1).value;
        PendingMonotone(env, acc.visited, sub.visited);
        var acc' := Loaded(acc.graph + sub.graph, sub.visited, acc.fetched + sub.fetched);
        assert LoadAll(env, imports, acc) == LoadAll(env, rest, acc');
        LoadAllLeast(env, rest, acc', s);
      }
    }
  }

  /** A `Load` call cannot fail when its target and an import-closed set
      holding its imports are all loadable, cycles or not. */
  lemma {:induction false} LoadSucceeds(env: Env, t: string, v: set<string>, s: set<string>)
    requires Fetch(env, t).Success? && ImportsOf(env, t) <= s
    requires Closed(env, s) && AllLoadable(env, s)
    ensures Load(env, t, v).Success?
    decreases Pending(env, v), 1, 0
  {
    var doc := Fetch(env, t).value;
    assert forall u :: u in Imports(doc) ==> u in Targets(env) && u in ImportsOf(env, t);
    LoadAllSucceeds(env, Imports(doc), Loaded(GraphOf(doc), v, [t]), s);
  }

  lemma {:induction false} LoadAllSucceeds(env: Env, imports: seq<string>, acc: Loaded, s: set<string>)
    requires forall u :: u in imports ==> u in Targets(env)
    requires Closed(env, s) && AllLoadable(env, s) && forall u :: u in imports ==> u in s
    ensures LoadAll(env, imports, acc).Success?
    decreases Pending(env, acc.visited), 0, |imports|
  {
    if |imports| > 0 {
      var u := imports[0];
      var rest := imports[1..];
      assert forall w :: w in rest ==> w in imports;
      if u in acc.visited {
        LoadAllSucceeds(env, rest, acc, s);
      } else {
        var v1 := acc.visited + {u};
        PendingDrops(env, acc.visited, u);
        LoadSucceeds(env, u, v1, s);
        var sub := Load(env, u, v1).value;
        PendingMonotone(env, acc.visited, sub.visited);
        var acc' := Loaded(acc.graph + sub.graph, sub.visited, acc.fetched + sub.fetched);
        assert LoadAll(env, imports, acc) == LoadAll(env, rest, acc');
        LoadAllSucceeds(env, rest, acc', s);
      }
    }
  }

  // ---------------------------------------------------------------------
  // The top-level call.

  /** The visited set of a successful resolution is exactly the import
      closure of the root: it holds the root's imports, it is closed under
      the import relation, and it lies inside every other such set. Every
      target in it loaded. */
  lemma ResolvedSetIsImportClosure(env: Env, root: string)
    requires LoadOwlImports(env, root).Success?
    ensures var vis := LoadOwlImports(env, root).value.visited;
      && Fetch(env, root).Success?
      && AllLoadable(env, vis)
      && ImportsOf(env, root) <= vis
      && Closed(env, vis)
      && forall s :: Closed(env, s) && ImportsOf(env, root) <= s ==> vis <= s
  {
    LoadGraph(env, root, {});
    LoadCloses(env, root, {});
    var vis := LoadOwlImports(env, root).value.visited;
    assert vis - {} == vis;
    forall s | Closed(env, s) && ImportsOf(env, root) <= s ensures vis <= s {
      LoadLeast(env, root, {}, s);
    }
  }

  /** The assembled constraint graph is the root's triples plus the triples
      of every visited target, independent of the order imports are met in. */
  lemma ResolvedGraph(env: Env, root: string)
    requires LoadOwlImports(env, root).Success?
    ensures LoadOwlImports(env, root).value.graph ==
      DocOf(env, root) + DocsOf(env, LoadOwlImports(env, root).value.visited)
  {
    LoadGraph(env, root, {});
    assert LoadOwlImports(env, root).value.visited - {} == LoadOwlImports(env, root).value.visited;
  }

  /** Each target is loaded at most once; the root, which is not marked
      visited up front, is loaded a second time exactly when some import
      leads back to it. */
  lemma EachTargetLoadedOnce(env: Env, root: string)
    requires LoadOwlImports(env, root).Success?
    ensures var r := LoadOwlImports(env, root).value;
      && multiset(r.fetched)[root] == (if root in r.visited then 2 else 1)
      && forall x :: x != root ==> multiset(r.fetched)[x] == (if x in r.visited then 1 else 0)
  {
    LoadLog(env, root, {});
    assert LoadOwlImports(env, root).value.visited - {} == LoadOwlImports(env, root).value.visited;
  }

  /** Resolution succeeds whenever the root and an import-closed set holding
      its imports are all loadable: there is no infinite recursion on cycles. */
  lemma ResolvesWhenClosureLoadable(env: Env, root: string, s: set<string>)
    requires Fetch(env, root).Success? && ImportsOf(env, root) <= s
    requires Closed(env, s) && AllLoadable(env, s)
    ensures LoadOwlImports(env, root).Success?
  {
    LoadSucceeds(env, root, {}, s);
  }

  /** No import target is exempt: a root importing the constraint language's
      own namespace makes the resolver fetch that namespace as a document. */
  lemma CoreNamespaceIsFetched(env: Env, root: string)
    requires SHACL_NAMESPACE in ImportsOf(env, root)
    requires LoadOwlImports(env, root).Success?
    ensures SHACL_NAMESPACE in env.web
    ensures SHACL_NAMESPACE in LoadOwlImports(env, root).value.fetched
  {
    ResolvedSetIsImportClosure(env, root);
    EachTargetLoadedOnce(env, root);
    assert StartsWith(SHACL_NAMESPACE, "http://") by {
      assert SHACL_NAMESPACE[..7] == "http://";
    }
  }

  const SHACL_NAMESPACE: string := "http://www.w3.org/ns/shacl#"

  // ---------------------------------------------------------------------
  // Scenarios.

  function ImportTriple(from: string, to: string): Triple
  {
    Triple(IRI(from), IRI(OWL_IMPORTS), IRI(to))
  }

  const RING: Env := Env(map[], map["a.ttl" := [ImportTriple("urn:a", "b.ttl")],
                                   "b.ttl" := [ImportTriple("urn:b", "c.ttl")],
                                   "c.ttl" := [ImportTriple("urn:c", "a.ttl")]])

  /** What each file of `RING` imports. */
  lemma RingImports()
    ensures ImportsOf(RING, "a.ttl") == {"b.ttl"}
    ensures ImportsOf(RING, "b.ttl") == {"c.ttl"}
    ensures ImportsOf(RING, "c.ttl") == {"a.ttl"}
  {
    assert Fetch(RING, "a.ttl") == Success([ImportTriple("urn:a", "b.ttl")]);
    assert Fetch(RING, "b.ttl") == Success([ImportTriple("urn:b", "c.ttl")]);
    assert Fetch(RING, "c.ttl") == Success([ImportTriple("urn:c", "a.ttl")]);
    assert Imports([ImportTriple("urn:a", "b.ttl")]) == ["b.ttl"];
    assert Imports([ImportTriple("urn:b", "c.ttl")]) == ["c.ttl"];
    assert Imports([ImportTriple("urn:c", "a.ttl")]) == ["a.ttl"];
  }

  /** The three files of `RING` load and form an import-closed set. */
  lemma RingStructure()
    ensures Fetch(RING, "a.ttl").Success?
    ensures Closed(RING, {"a.ttl", "b.ttl", "c.ttl"})
    ensures AllLoadable(RING, {"a.ttl", "b.ttl", "c.ttl"})
  {
    var all := {"a.ttl", "b.ttl", "c.ttl"};
    RingImports();
    forall x | x in all ensures Fetch(RING, x).Success? && ImportsOf(RING, x) <= all {
      assert |x| == 5;
      if x == "a.ttl" {
      } else if x == "b.ttl" {
      } else {
        assert x == "c.ttl";
      }
    }
  }

  /** Three local files importing each other in a ring: resolution from the
      first terminates, visits all three, and loads the root twice and the
      other two once. */
  lemma ThreeCycle()
    ensures LoadOwlImports(RING, "a.ttl").Success?
    ensures LoadOwlImports(RING, "a.ttl").value.visited == {"a.ttl", "b.ttl", "c.ttl"}
    ensures var m := multiset(LoadOwlImports(RING, "a.ttl").value.fetched);
      m["a.ttl"] == 2 && m["b.ttl"] == 1 && m["c.ttl"] == 1
  {
    var all := {"a.ttl", "b.ttl", "c.ttl"};
    RingImports();
    RingStructure();
    ResolvesWhenClosureLoadable(RING, "a.ttl", all);
    ResolvedSetIsImportClosure(RING, "a.ttl");
    EachTargetLoadedOnce(RING, "a.ttl");
    var r := LoadOwlImports(RING, "a.ttl").value;
    assert r.visited <= all;
    assert "b.ttl" in r.visited;
    assert "c.ttl" in r.visited;
    assert "a.ttl" in r.visited;
  }

  const DIAMOND: Env := Env(map[], map["a.ttl" := [ImportTriple("urn:a", "b.ttl"), ImportTriple("urn:a", "c.ttl")],
                                      "b.ttl" := [ImportTriple("urn:b", "d.ttl")],
                                      "c.ttl" := [ImportTriple("urn:c", "d.ttl")],
                                      "d.ttl" := []])

  /** What each file of `DIAMOND` imports. */
  lemma DiamondImports()
    ensures ImportsOf(DIAMOND, "a.ttl") == {"b.ttl", "c.ttl"}
    ensures ImportsOf(DIAMOND, "b.ttl") == {"d.ttl"}
    ensures ImportsOf(DIAMOND, "c.ttl") == {"d.ttl"}
    ensures ImportsOf(DIAMOND, "d.ttl") == {}
  {
    assert Fetch(DIAMOND, "a.ttl") == Success([ImportTriple("urn:a", "b.ttl"), ImportTriple("urn:a", "c.ttl")]);
    assert Fetch(DIAMOND, "b.ttl") == Success([ImportTriple("urn:b", "d.ttl")]);
    assert Fetch(DIAMOND, "c.ttl") == Success([ImportTriple("urn:c", "d.ttl")]);
    assert Fetch(DIAMOND, "d.ttl") == Success([]);
    assert Imports([ImportTriple("urn:a", "b.ttl"), ImportTriple("urn:a", "c.ttl")]) == ["b.ttl", "c.ttl"];
    assert Imports([ImportTriple("urn:b", "d.ttl")]) == ["d.ttl"];
    assert Imports([ImportTriple("urn:c", "d.ttl")]) == ["d.ttl"];
  }

  /** Every file of `DIAMOND` loads. */
  lemma DiamondLoadable()
    ensures AllLoadable(DIAMOND, {"a.ttl", "b.ttl", "c.ttl", "d.ttl"})
  {
    forall x | x in {"a.ttl", "b.ttl", "c.ttl", "d.ttl"}
      ensures Fetch(DIAMOND, x).Success?
    {
      assert |x| == 5;
    }
  }

  /** The root of `DIAMOND` loads, and the three files below it form an
      import-closed, loadable set. */
  lemma DiamondStructure()
    ensures Fetch(DIAMOND, "a.ttl").Success?
    ensures ImportsOf(DIAMOND, "a.ttl") == {"b.ttl", "c.ttl"}
    ensures Closed(DIAMOND, {"b.ttl", "c.ttl", "d.ttl"})
    ensures AllLoadable(DIAMOND, {"b.ttl", "c.ttl", "d.ttl"})
  {
    DiamondImports();
    DiamondLoadable();
    var below := {"b.ttl", "c.ttl", "d.ttl"};
    forall x | x in below ensures ImportsOf(DIAMOND, x) <= below {
      if x == "b.ttl" {
      } else if x == "c.ttl" {
      } else {
        assert x == "d.ttl";
      }
    }
  }

  /** A diamond: the root imports two files which both import a fourth. The
      shared file is loaded once, as is every other file. */
  lemma Diamond()
    ensures LoadOwlImports(DIAMOND, "a.ttl").Success?
    ensures var m := multiset(LoadOwlImports(DIAMOND, "a.ttl").value.fetched);
      m["a.ttl"] == 1 && m["b.ttl"] == 1 && m["c.ttl"] == 1 && m["d.ttl"] == 1
  {
    DiamondVisited();
    EachTargetLoadedOnce(DIAMOND, "a.ttl");
    assert "a.ttl" !in {"b.ttl", "c.ttl", "d.ttl"};
  }

  /** Resolving `DIAMOND` from its root visits exactly the three files below it. */
  lemma DiamondVisited()
    ensures LoadOwlImports(DIAMOND, "a.ttl").Success?
    ensures LoadOwlImports(DIAMOND, "a.ttl").value.visited == {"b.ttl", "c.ttl", "d.ttl"}
  {
    var all := {"b.ttl", "c.ttl", "d.ttl"};
    DiamondStructure();
    ResolvesWhenClosureLoadable(DIAMOND, "a.ttl", all);
    ResolvedSetIsImportClosure(DIAMOND, "a.ttl");
    var vis := LoadOwlImports(DIAMOND, "a.ttl").value.visited;
    assert vis <= all;
    assert "b.ttl" in vis && "c.ttl" in vis;
    assert ImportsOf(DIAMOND, "b.ttl") <= vis;
    assert "d.ttl" in vis;
  }
}

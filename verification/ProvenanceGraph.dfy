/** The upstream provenance graph of an artifact (src/lineage_db.rs): a worklist
    walk over a possibly cyclic edge table, with an export boundary. */
module ProvenanceGraph {
  import opened Options
  import opened Strings
  import opened Sorting
  import Tenants

  datatype EdgeKey = EdgeKey(jobId: string, toIdx: int, inputHash: string)

  datatype Artifact = Artifact(jobId: string, stageName: string, kind: string)

  datatype Node = Node(contentHash: string, artifact: Option<Artifact>)

  datatype Graph = Graph(root: string, nodes: seq<Node>, edges: seq<(string, string)>)

  /** A row of the artifact table; jobId and stageIdx are its primary key. */
  datatype ArtifactRow = ArtifactRow(
    jobId: string, stageIdx: int, stageName: string, contentHash: string, kind: string, producedUnix: Option<int>)

  /** The tables a walk reads: edges by primary key, artifact rows in the order the
      database happens to keep them, and the tenant of each run. */
  datatype Tables = Tables(edges: map<EdgeKey, string>, artifacts: seq<ArtifactRow>, tenants: map<string, string>)

  class LineageDb {
    var db: Tables

    constructor ()
      ensures db == Tables(map[], [], map[]) && Folded(db)
    {
      db := Tables(map[], [], map[]);
    }

    /** Insert or replace the row of one stage, its hash lowercased. */
    method RecordArtifact(row: ArtifactRow)
      modifies this
      ensures db.edges == old(db).edges && db.tenants == old(db).tenants
      ensures forall r :: r in db.artifacts <==>
                || r == row.(contentHash := Lower(row.contentHash))
                || (r in old(db).artifacts && (r.jobId != row.jobId || r.stageIdx != row.stageIdx))
      ensures old(Folded(db)) ==> Folded(db)
    {
      LowerIdempotent(row.contentHash);
      var kept: seq<ArtifactRow> := [];
      for i := 0 to |db.artifacts|
        invariant db == old(db)
        invariant forall r :: r in kept <==> r in db.artifacts[..i] && !SameKey(r, row)
      {
        if !SameKey(db.artifacts[i], row) {
          kept := kept + [db.artifacts[i]];
        }
      }
      assert db.artifacts[..|db.artifacts|] == db.artifacts;
      db := db.(artifacts := kept + [row.(contentHash := Lower(row.contentHash))]);
    }

    /** Upsert one edge, hashes lowercased. */
    method RecordEdge(jobId: string, toIdx: int, inputHash: string, outputHash: string)
      modifies this
      ensures db == old(db).(edges := old(db).edges[EdgeKey(jobId, toIdx, Lower(inputHash)) := Lower(outputHash)])
      ensures old(Folded(db)) ==> Folded(db)
    {
      LowerIdempotent(inputHash);
      LowerIdempotent(outputHash);
      db := db.(edges := db.edges[EdgeKey(jobId, toIdx, Lower(inputHash)) := Lower(outputHash)]);
    }
  }

  predicate SameKey(a: ArtifactRow, b: ArtifactRow) { a.jobId == b.jobId && a.stageIdx == b.stageIdx }

  /** Every recorded hash is lowercase. */
  ghost predicate Folded(db: Tables) {
    && (forall k :: k in db.edges ==> Lower(k.inputHash) == k.inputHash && Lower(db.edges[k]) == db.edges[k])
    && (forall r :: r in db.artifacts ==> Lower(r.contentHash) == r.contentHash)
  }

  ghost predicate Edge(db: Tables, input: string, output: string) {
    exists k :: k in db.edges && k.inputHash == input && db.edges[k] == Lower(output)
  }

  /** Descending by time, rows without a time last. */
  predicate Newer(a: ArtifactRow, b: ArtifactRow) {
    a.producedUnix.Some? && (b.producedUnix.None? || a.producedUnix.value > b.producedUnix.value)
  }

  /** The first of the newest rows of a hash. Among equally new rows it is the
      order of the rows that decides. */
  function NewestRow(rows: seq<ArtifactRow>, h: string): Option<ArtifactRow> {
    if rows == [] then None
    else
      var best, last := NewestRow(rows[..|rows| - 1], h), rows[|rows| - 1];
      if last.contentHash == h && (best.None? || Newer(last, best.value)) then Some(last) else best
  }

  function ArtifactOf(db: Tables, h: string): Option<Artifact> {
    var row := NewestRow(db.artifacts, h);
    if row.None? then None else Some(Shown(row.value))
  }

  /** What the graph shows of a row. */
  function Shown(row: ArtifactRow): Artifact { Artifact(row.jobId, row.stageName, row.kind) }

  predicate RestrictedRun(db: Tables, jobId: string) {
    && jobId in db.tenants
    && var t := Tenants.Parse(db.tenants[jobId]);
       t.Some? && Tenants.IsRestricted(t.value)
  }

  /** The export boundary as the walk sees it: the run of the row it was given. */
  predicate Restricted(db: Tables, h: string) {
    ArtifactOf(db, h).Some? && RestrictedRun(db, ArtifactOf(db, h).value.jobId)
  }

  predicate Dropped(db: Tables, exclude: bool, h: string) { exclude && Restricted(db, h) }

  /** A walk from the root along input edges through kept vertices only. */
  ghost predicate KeptPath(db: Tables, exclude: bool, root: string, p: seq<string>) {
    && p != [] && p[0] == root
    && (forall i :: 0 <= i < |p| ==> !Dropped(db, exclude, p[i]))
    && (forall i :: 0 < i < |p| ==> Edge(db, p[i], p[i - 1]))
  }

  ghost predicate Kept(db: Tables, exclude: bool, root: string, h: string) {
    exists p :: KeptPath(db, exclude, root, p) && p[|p| - 1] == h
  }

  lemma KeptRoot(db: Tables, exclude: bool, root: string)
    ensures Kept(db, exclude, root, root) <==> !Dropped(db, exclude, root)
  {
    if !Dropped(db, exclude, root) { assert KeptPath(db, exclude, root, [root]); }
  }

  lemma KeptStep(db: Tables, exclude: bool, root: string, c: string, h: string)
    requires Kept(db, exclude, root, c) && Edge(db, h, c) && !Dropped(db, exclude, h)
    ensures Kept(db, exclude, root, h)
  {
    var p :| KeptPath(db, exclude, root, p) && p[|p| - 1] == c;
    var q := p + [h];
    assert KeptPath(db, exclude, root, q) && q[|q| - 1] == h;
  }

  /** A set that holds the root if kept, and every kept input of its members,
      holds everything kept. */
  lemma {:induction false} ClosedHoldsPath(db: Tables, exclude: bool, root: string, s: set<string>, p: seq<string>)
    requires KeptPath(db, exclude, root, p)
    requires !Dropped(db, exclude, root) ==> root in s
    requires forall c, h :: c in s && Edge(db, h, c) && !Dropped(db, exclude, h) ==> h in s
    ensures p[|p| - 1] in s
    decreases |p|
  {
    hide Edge, Dropped;
    var n := |p| - 1;
    if n > 0 {
      assert KeptPath(db, exclude, root, p[..n]);
      ClosedHoldsPath(db, exclude, root, s, p[..n]);
      assert p[..n][n - 1] == p[n - 1];
      assert Edge(db, p[n], p[n - 1]);
    }
  }

  // ---- orders ----

  predicate NodeLess(a: Node, b: Node) { StrLess(a.contentHash, b.contentHash) }

  predicate PairLess(a: (string, string), b: (string, string)) {
    StrLess(a.0, b.0) || (a.0 == b.0 && StrLess(a.1, b.1))
  }

  lemma PairLessStrict()
    ensures StrictTotal(PairLess)
  {
    hide StrLess;
    StrLessStrict();
  }

  // ---- the result ----

  function Hashes(nodes: seq<Node>): seq<string> {
    seq(|nodes|, i requires 0 <= i < |nodes| => nodes[i].contentHash)
  }

  /** g is the kept upstream graph: exactly the reachable kept hashes with their
      artifact rows, exactly the edges between them, both sorted, no repeats. */
  ghost predicate IsUpstream(db: Tables, exclude: bool, root: string, g: Graph) {
    && g.root == root
    && (forall n :: n in g.nodes ==> n.artifact == ArtifactOf(db, n.contentHash))
    && (forall h :: h in Hashes(g.nodes) <==> Kept(db, exclude, root, h))
    && (forall e :: e in g.edges <==>
          Kept(db, exclude, root, e.0) && Kept(db, exclude, root, e.1) && Edge(db, e.0, e.1))
    && Ascending(StrLess, Hashes(g.nodes))
    && Ascending(PairLess, g.edges)
  }

  /** The tables determine the graph: the order of the walk does not show. */
  lemma UpstreamUnique(db: Tables, exclude: bool, root: string, g: Graph, g': Graph)
    requires IsUpstream(db, exclude, root, g) && IsUpstream(db, exclude, root, g')
    ensures g == g'
  {
    hide StrLess, PairLess, Kept, Edge;
    StrLessStrict();
    PairLessStrict();
    AscendingUnique(StrLess, Hashes(g.nodes), Hashes(g'.nodes));
    AscendingUnique(PairLess, g.edges, g'.edges);
    NodesFromHashes(db, g.nodes, g'.nodes);
  }

  lemma NodesFromHashes(db: Tables, a: seq<Node>, b: seq<Node>)
    requires Hashes(a) == Hashes(b)
    requires forall n :: n in a ==> n.artifact == ArtifactOf(db, n.contentHash)
    requires forall n :: n in b ==> n.artifact == ArtifactOf(db, n.contentHash)
    ensures a == b
  {
    hide ArtifactOf;
    assert |a| == |Hashes(a)| == |Hashes(b)| == |b|;
    forall i | 0 <= i < |a| ensures a[i] == b[i] {
      assert Hashes(a)[i] == Hashes(b)[i];
      assert a[i] in a && b[i] in b;
    }
  }

  // ---- sorting the collected lists ----

  lemma HashesCons(x: Node, s: seq<Node>)
    ensures |Hashes(s)| == |s| && Hashes([x] + s) == [x.contentHash] + Hashes(s)
  {
  }

  lemma {:induction false} HashesOfInsert(x: Node, s: seq<Node>)
    ensures Hashes(Insert(NodeLess, x, s)) == Insert(StrLess, x.contentHash, Hashes(s))
  {
    hide StrLess, Hashes;
    HashesCons(x, s);
    if s == [] {
      assert [x] + s == [x];
    } else {
      var rest := s[1..];
      HashesOfInsert(x, rest);
      HashesCons(s[0], rest);
      assert s == [s[0]] + rest && Hashes(s)[1..] == Hashes(rest);
      HashesCons(s[0], Insert(NodeLess, x, rest));
    }
  }

  lemma {:induction false} HashesOfSort(s: seq<Node>)
    ensures Hashes(Sort(NodeLess, s)) == Sort(StrLess, Hashes(s))
  {
    hide StrLess;
    if s != [] {
      HashesOfSort(s[1..]);
      assert Hashes(s)[1..] == Hashes(s[1..]);
      HashesOfInsert(s[0], Sort(NodeLess, s[1..]));
    }
  }

  // ---- the walk ----

  /** Distinct inputs of an output, in whatever order the table yields them. */
  method InputsForOutput(db: Tables, output: string) returns (inputs: seq<string>)
    ensures NoDuplicates(inputs)
    ensures forall h :: h in inputs <==> Edge(db, h, output)
  {
    inputs := [];
    var keys := db.edges.Keys;
    while keys != {}
      invariant keys <= db.edges.Keys
      invariant NoDuplicates(inputs)
      invariant forall h :: h in inputs ==> Edge(db, h, output)
      invariant forall k :: k in db.edges && k !in keys && db.edges[k] == Lower(output) ==> k.inputHash in inputs
      decreases keys
    {
      var k :| k in keys;
      keys := keys - {k};
      if db.edges[k] == Lower(output) && k.inputHash !in inputs {
        inputs := inputs + [k.inputHash];
      }
    }
  }

  function Fan(inputs: seq<string>, cur: string): (r: seq<(string, string)>)
    ensures |r| == |inputs| && forall i :: 0 <= i < |inputs| ==> r[i] == (inputs[i], cur)
  {
    if inputs == [] then [] else Fan(inputs[..|inputs| - 1], cur) + [(inputs[|inputs| - 1], cur)]
  }

  /** Queue the inputs of one vertex and note its edges. */
  method PushInputs(cur: string, inputs: seq<string>, seen: set<string>, queue: seq<string>,
                    edges: seq<(string, string)>)
    returns (queue': seq<string>, edges': seq<(string, string)>)
    ensures forall h :: h in queue' <==> h in queue || (h in inputs && h !in seen)
    ensures edges' == edges + Fan(inputs, cur)
  {
    queue', edges' := queue, edges;
    for i := 0 to |inputs|
      invariant forall h :: h in queue' <==> h in queue || (h in inputs[..i] && h !in seen)
      invariant edges' == edges + Fan(inputs[..i], cur)
    {
      var input := inputs[i];
      assert inputs[..i + 1] == inputs[..i] + [input];
      edges' := edges' + [(input, cur)];
      if input !in seen {
        queue' := queue' + [input];
      }
    }
    assert inputs[..|inputs|] == inputs;
  }

  /** Discovered: the root, or an input of a kept vertex. */
  ghost predicate Found(db: Tables, exclude: bool, root: string, h: string) {
    h == root || exists c :: Kept(db, exclude, root, c) && Edge(db, h, c)
  }

  lemma FoundIsKept(db: Tables, exclude: bool, root: string, h: string)
    requires Found(db, exclude, root, h) && !Dropped(db, exclude, h)
    ensures Kept(db, exclude, root, h)
  {
    hide Kept, Edge, Dropped;
    KeptRoot(db, exclude, root);
    if h != root {
      var c :| Kept(db, exclude, root, c) && Edge(db, h, c);
      KeptStep(db, exclude, root, c, h);
    }
  }

  /** What has been processed so far. */
  ghost predicate Collected(db: Tables, exclude: bool, seen: set<string>, nodes: seq<Node>,
                            edges: seq<(string, string)>) {
    && (forall n :: n in nodes ==> n.artifact == ArtifactOf(db, n.contentHash))
    && (forall h :: h in Hashes(nodes) <==> h in seen && !Dropped(db, exclude, h))
    && NoDuplicates(Hashes(nodes))
    && (forall e :: e in edges <==> e.1 in seen && !Dropped(db, exclude, e.1) && Edge(db, e.0, e.1))
    && NoDuplicates(edges)
  }

  ghost predicate Frontier(db: Tables, exclude: bool, root: string, seen: set<string>, queue: seq<string>) {
    && (root in seen || root in queue)
    && (forall h :: h in seen || h in queue ==> Found(db, exclude, root, h))
    && (forall c, h :: c in seen && !Dropped(db, exclude, c) && Edge(db, h, c) ==> h in seen || h in queue)
  }

  lemma CollectDropped(db: Tables, exclude: bool, seen: set<string>, nodes: seq<Node>, edges: seq<(string, string)>,
                       cur: string)
    requires Collected(db, exclude, seen, nodes, edges) && Dropped(db, exclude, cur)
    ensures Collected(db, exclude, seen + {cur}, nodes, edges)
  {
    hide Dropped, Edge;
  }

  lemma CollectKept(db: Tables, exclude: bool, seen: set<string>, nodes: seq<Node>, edges: seq<(string, string)>,
                    cur: string, inputs: seq<string>)
    requires Collected(db, exclude, seen, nodes, edges) && cur !in seen && !Dropped(db, exclude, cur)
    requires NoDuplicates(inputs) && forall h :: h in inputs <==> Edge(db, h, cur)
    ensures Collected(db, exclude, seen + {cur}, nodes + [Node(cur, ArtifactOf(db, cur))], edges + Fan(inputs, cur))
  {
    hide Dropped, Edge, ArtifactOf;
    var node := Node(cur, ArtifactOf(db, cur));
    assert Hashes(nodes + [node]) == Hashes(nodes) + [cur];
    assert cur !in Hashes(nodes);
    FanMembers(inputs, cur);
    NoDuplicatesConcat(edges, Fan(inputs, cur));
  }

  lemma FanMembers(inputs: seq<string>, cur: string)
    requires NoDuplicates(inputs)
    ensures NoDuplicates(Fan(inputs, cur))
    ensures forall e :: e in Fan(inputs, cur) <==> e.1 == cur && e.0 in inputs
  {
    var f := Fan(inputs, cur);
    forall e: (string, string) | e.1 == cur && e.0 in inputs ensures e in f {
      var i :| 0 <= i < |inputs| && inputs[i] == e.0;
      assert f[i] == e;
    }
  }

  lemma NoDuplicatesConcat<T>(a: seq<T>, b: seq<T>)
    requires NoDuplicates(a) && NoDuplicates(b) && forall x :: x in a ==> x !in b
    ensures NoDuplicates(a + b)
  {
    forall i, j | 0 <= i < j < |a + b| ensures (a + b)[i] != (a + b)[j] {
      if i < |a| <= j { assert a[i] in a && b[j - |a|] in b; }
    }
  }

  lemma FrontierDropped(db: Tables, exclude: bool, root: string, seen: set<string>, queue: seq<string>)
    requires queue != [] && Frontier(db, exclude, root, seen, queue)
    requires queue[0] in seen || Dropped(db, exclude, queue[0])
    ensures Frontier(db, exclude, root, seen + {queue[0]}, queue[1..])
  {
    hide Dropped, Edge, Found;
    assert queue == [queue[0]] + queue[1..];
  }

  lemma FrontierKept(db: Tables, exclude: bool, root: string, seen: set<string>, queue: seq<string>,
                     queue': seq<string>)
    requires queue != [] && Frontier(db, exclude, root, seen, queue) && !Dropped(db, exclude, queue[0])
    requires forall h :: h in queue' <==> h in queue[1..] || (Edge(db, h, queue[0]) && h !in seen + {queue[0]})
    ensures Frontier(db, exclude, root, seen + {queue[0]}, queue')
  {
    hide Dropped, Edge, Kept;
    var cur := queue[0];
    assert queue == [cur] + queue[1..];
    assert cur in queue;
    FoundIsKept(db, exclude, root, cur);
    forall h | h in queue' ensures Found(db, exclude, root, h) {
      if h in queue[1..] { assert h in queue; }
    }
  }

  /** With nothing left to visit, the collected vertices are exactly the kept ones. */
  lemma WalkDone(db: Tables, exclude: bool, root: string, seen: set<string>, nodes: seq<Node>,
                 edges: seq<(string, string)>)
    requires Collected(db, exclude, seen, nodes, edges) && Frontier(db, exclude, root, seen, [])
    ensures forall h :: h in Hashes(nodes) <==> Kept(db, exclude, root, h)
  {
    hide Dropped, Edge, Found, Hashes;
    var s := set h | h in seen && !Dropped(db, exclude, h);
    forall h | h in Hashes(nodes) ensures Kept(db, exclude, root, h) { FoundIsKept(db, exclude, root, h); }
    forall h | Kept(db, exclude, root, h) ensures h in Hashes(nodes) {
      var p :| KeptPath(db, exclude, root, p) && p[|p| - 1] == h;
      ClosedHoldsPath(db, exclude, root, s, p);
    }
  }

  /** Drop every edge with an excluded endpoint. */
  function Retained(edges: seq<(string, string)>, kept: set<string>): (r: seq<(string, string)>)
    ensures forall e :: e in r <==> e in edges && e.0 in kept && e.1 in kept
  {
    if edges == [] then []
    else
      var (last, rest) := (edges[|edges| - 1], edges[..|edges| - 1]);
      assert edges == rest + [last];
      Retained(rest, kept) + (if last.0 in kept && last.1 in kept then [last] else [])
  }

  lemma {:induction false} RetainedNoDuplicates(edges: seq<(string, string)>, kept: set<string>)
    requires NoDuplicates(edges)
    ensures NoDuplicates(Retained(edges, kept))
  {
    if edges != [] {
      var last, rest := edges[|edges| - 1], edges[..|edges| - 1];
      RetainedNoDuplicates(rest, kept);
      assert last !in rest;
      if last.0 in kept && last.1 in kept { NoDuplicatesConcat(Retained(rest, kept), [last]); }
    }
  }

  lemma Finish(db: Tables, exclude: bool, root: string, seen: set<string>, nodes: seq<Node>,
               edges: seq<(string, string)>)
    requires Collected(db, exclude, seen, nodes, edges) && Frontier(db, exclude, root, seen, [])
    ensures var kept := set h | h in Hashes(nodes);
            IsUpstream(db, exclude, root, Graph(root, Sort(NodeLess, nodes), Sort(PairLess, Retained(edges, kept))))
  {
    hide Dropped, Edge, Kept, StrLess, PairLess, Hashes, NodeLess, Sort, StrictTotal, Ascending;
    var kept := set h | h in Hashes(nodes);
    WalkDone(db, exclude, root, seen, nodes, edges);
    FinishNodes(nodes);
    FinishEdges(edges, kept);
    assert forall h :: h in Hashes(Sort(NodeLess, nodes)) <==> Kept(db, exclude, root, h);
  }

  lemma FinishNodes(nodes: seq<Node>)
    requires NoDuplicates(Hashes(nodes))
    ensures Ascending(StrLess, Hashes(Sort(NodeLess, nodes)))
    ensures forall h :: h in Hashes(Sort(NodeLess, nodes)) <==> h in Hashes(nodes)
  {
    hide StrLess, Hashes, NodeLess, StrictTotal, Ascending, NoDuplicates;
    StrLessStrict();
    HashesOfSort(nodes);
    SortAscending(StrLess, Hashes(nodes));
  }

  lemma FinishEdges(edges: seq<(string, string)>, kept: set<string>)
    requires NoDuplicates(edges)
    ensures Ascending(PairLess, Sort(PairLess, Retained(edges, kept)))
  {
    hide PairLess, StrictTotal, Ascending, NoDuplicates;
    PairLessStrict();
    RetainedNoDuplicates(edges, kept);
    SortAscending(PairLess, Retained(edges, kept));
  }

  /** The full transitive upstream graph, for any edge table, cyclic or not. */
  method GraphUpstream(db: Tables, hash: string, exclude: bool) returns (g: Graph)
    ensures IsUpstream(db, exclude, Lower(hash), g)
  {
    hide Collected, Frontier, Dropped, Edge;
    var root := Lower(hash);
    var nodes: seq<Node>, edges: seq<(string, string)> := [], [];
    var seen: set<string>, queue := {}, [root];
    ghost var universe := {root} + set k | k in db.edges :: k.inputHash;
    Start(db, exclude, root);
    while queue != []
      invariant Collected(db, exclude, seen, nodes, edges)
      invariant Frontier(db, exclude, root, seen, queue)
      invariant seen <= universe && forall h :: h in queue ==> h in universe
      decreases |universe - seen|, |queue|
    {
      ghost var before := queue;
      var cur := queue[0];
      assert cur in queue;
      queue := queue[1..];
      if cur in seen {
        FrontierDropped(db, exclude, root, seen, before);
        assert seen + {cur} == seen;
        continue;
      }
      ghost var seen0 := seen;
      seen := seen + {cur};
      Shrinks(universe, seen0, cur);
      if Dropped(db, exclude, cur) {
        CollectDropped(db, exclude, seen0, nodes, edges, cur);
        FrontierDropped(db, exclude, root, seen0, before);
        continue;
      }
      var inputs := InputsForOutput(db, cur);
      CollectKept(db, exclude, seen0, nodes, edges, cur, inputs);
      nodes := nodes + [Node(cur, ArtifactOf(db, cur))];
      queue, edges := PushInputs(cur, inputs, seen, queue, edges);
      FrontierKept(db, exclude, root, seen0, before, queue);
      InputsInUniverse(db, cur);
    }
    var hashes := Hashes(nodes);
    var kept := set h | h in hashes;
    Finish(db, exclude, root, seen, nodes, edges);
    g := Graph(root, Sort(NodeLess, nodes), Sort(PairLess, Retained(edges, kept)));
  }

  lemma Start(db: Tables, exclude: bool, root: string)
    ensures Collected(db, exclude, {}, [], []) && Frontier(db, exclude, root, {}, [root])
  {
  }

  lemma Shrinks(universe: set<string>, seen: set<string>, cur: string)
    requires cur in universe && cur !in seen
    ensures |universe - (seen + {cur})| < |universe - seen|
  {
    assert universe - seen == (universe - (seen + {cur})) + {cur};
  }

  lemma InputsInUniverse(db: Tables, output: string)
    ensures forall h :: Edge(db, h, output) ==> h in set k | k in db.edges :: k.inputHash
  {
  }

  /** On a folded table a reported edge is a recorded row, as stored. */
  lemma EdgesAreRows(db: Tables, exclude: bool, hash: string, g: Graph, e: (string, string))
    requires Folded(db) && IsUpstream(db, exclude, Lower(hash), g) && e in g.edges
    ensures exists k :: k in db.edges && k.inputHash == e.0 && db.edges[k] == e.1
  {
    LowerIdempotent(hash);
    var p :| KeptPath(db, exclude, Lower(hash), p) && p[|p| - 1] == e.1;
    PathIsFolded(db, exclude, Lower(hash), p);
    var k :| k in db.edges && k.inputHash == e.0 && db.edges[k] == Lower(e.1);
  }

  lemma PathIsFolded(db: Tables, exclude: bool, root: string, p: seq<string>)
    requires Folded(db) && Lower(root) == root && KeptPath(db, exclude, root, p)
    ensures Lower(p[|p| - 1]) == p[|p| - 1]
  {
    var n := |p| - 1;
    if n > 0 {
      assert Edge(db, p[n], p[n - 1]);
      var k :| k in db.edges && k.inputHash == p[n] && db.edges[k] == Lower(p[n - 1]);
    }
  }

  // ---- a graph exists for every table ----

  lemma {:induction false} ListOf<T>(s: set<T>) returns (r: seq<T>)
    ensures NoDuplicates(r) && forall x :: x in r <==> x in s
  {
    if s == {} {
      r := [];
    } else {
      var x :| x in s;
      r := ListOf(s - {x});
      NoDuplicatesConcat(r, [x]);
      r := r + [x];
    }
  }

  lemma UpstreamExists(db: Tables, exclude: bool, root: string) returns (g: Graph)
    ensures IsUpstream(db, exclude, root, g)
  {
    hide Kept, Edge, Ascending, StrLess, PairLess, ArtifactOf;
    var universe := {root} + set k | k in db.edges :: k.inputHash;
    var kept := set h | h in universe && Kept(db, exclude, root, h);
    forall h | Kept(db, exclude, root, h) ensures h in universe { KeptInUniverse(db, exclude, root, h); }
    var sorted := SortedHashes(kept);
    var pairs := SortedPairs(set a, b | a in kept && b in kept && Edge(db, a, b) :: (a, b));
    var nodes := seq(|sorted|, i requires 0 <= i < |sorted| => Node(sorted[i], ArtifactOf(db, sorted[i])));
    assert Hashes(nodes) == sorted;
    g := Graph(root, nodes, pairs);
  }

  lemma SortedHashes(s: set<string>) returns (r: seq<string>)
    ensures Ascending(StrLess, r) && forall h :: h in r <==> h in s
  {
    hide StrLess, Ascending, StrictTotal;
    var list := ListOf(s);
    StrLessStrict();
    SortAscending(StrLess, list);
    r := Sort(StrLess, list);
  }

  lemma SortedPairs(s: set<(string, string)>) returns (r: seq<(string, string)>)
    ensures Ascending(PairLess, r) && forall e :: e in r <==> e in s
  {
    hide PairLess, Ascending, StrictTotal;
    var list := ListOf(s);
    PairLessStrict();
    SortAscending(PairLess, list);
    r := Sort(PairLess, list);
  }

  lemma KeptInUniverse(db: Tables, exclude: bool, root: string, h: string)
    requires Kept(db, exclude, root, h)
    ensures h in {root} + set k | k in db.edges :: k.inputHash
  {
    var p :| KeptPath(db, exclude, root, p) && p[|p| - 1] == h;
    if |p| > 1 { assert Edge(db, p[|p| - 1], p[|p| - 2]); }
  }

  // ---- several rows for one hash ----

  ghost predicate IsNewest(rows: seq<ArtifactRow>, h: string, r: ArtifactRow) {
    r in rows && r.contentHash == h && forall q :: q in rows && q.contentHash == h ==> !Newer(q, r)
  }

  lemma {:induction false} NewestRowIsNewest(rows: seq<ArtifactRow>, h: string)
    ensures NewestRow(rows, h).None? <==> forall r :: r in rows ==> r.contentHash != h
    ensures NewestRow(rows, h).Some? ==> IsNewest(rows, h, NewestRow(rows, h).value)
  {
    if rows != [] {
      var rest, last := rows[..|rows| - 1], rows[|rows| - 1];
      assert rows == rest + [last];
      NewestRowIsNewest(rest, h);
    }
  }

  /** The database may give any of the newest rows: whichever comes first. */
  lemma {:induction false} FirstNewestWins(rows: seq<ArtifactRow>, h: string)
    requires rows != [] && IsNewest(rows, h, rows[0])
    ensures NewestRow(rows, h) == Some(rows[0])
  {
    var rest, last := rows[..|rows| - 1], rows[|rows| - 1];
    if rest != [] {
      assert rest[0] == rows[0] && forall q :: q in rest ==> q in rows;
      FirstNewestWins(rest, h);
      assert last in rows;
    }
  }

  /** A node shows, field by field, a row of its hash that none is later than: a row
      with a time if any has one, and with the latest; nothing only without rows. */
  lemma NodeShowsNewest(db: Tables, exclude: bool, root: string, g: Graph, n: Node)
    requires IsUpstream(db, exclude, root, g) && n in g.nodes
    ensures n.artifact.None? <==> forall r :: r in db.artifacts ==> r.contentHash != n.contentHash
    ensures n.artifact.Some? ==>
              exists r :: r in db.artifacts && r.contentHash == n.contentHash
                && n.artifact.value.jobId == r.jobId && n.artifact.value.stageName == r.stageName
                && n.artifact.value.kind == r.kind
                && forall q :: q in db.artifacts && q.contentHash == n.contentHash && q.producedUnix.Some? ==>
                     r.producedUnix.Some? && q.producedUnix.value <= r.producedUnix.value
  {
    hide NewestRow, Kept, Hashes;
    NewestRowIsNewest(db.artifacts, n.contentHash);
    if n.artifact.Some? {
      var r := NewestRow(db.artifacts, n.contentHash).value;
      forall q | q in db.artifacts && q.contentHash == n.contentHash && q.producedUnix.Some?
        ensures r.producedUnix.Some? && q.producedUnix.value <= r.producedUnix.value
      {
        assert !Newer(q, r);
      }
    }
  }

  /** Two spellings of a hash that differ in case only have the same graphs. */
  lemma CaseDoesNotShow(db: Tables, exclude: bool, a: string, b: string, g: Graph)
    requires |a| == |b| && forall i :: 0 <= i < |a| ==> SameLetter(a[i], b[i])
    ensures IsUpstream(db, exclude, Lower(a), g) <==> IsUpstream(db, exclude, Lower(b), g)
  {
    hide IsUpstream, Lower;
    LowerIff(a, b);
  }

  /** The same tables with the artifact rows kept in another order. */
  ghost predicate Reordered(a: Tables, b: Tables) {
    a.edges == b.edges && a.tenants == b.tenants && multiset(a.artifacts) == multiset(b.artifacts)
  }

  lemma ReorderedRows(a: Tables, b: Tables)
    requires Reordered(a, b)
    ensures forall r :: r in a.artifacts <==> r in b.artifacts
    ensures forall h, r :: IsNewest(a.artifacts, h, r) <==> IsNewest(b.artifacts, h, r)
  {
    assert forall r :: r in a.artifacts <==> r in multiset(a.artifacts);
    assert forall r :: r in b.artifacts <==> r in multiset(b.artifacts);
  }

  /** Any newest row can be the one the walk is given. */
  lemma PutFirst(db: Tables, h: string, r: ArtifactRow) returns (db': Tables)
    requires IsNewest(db.artifacts, h, r)
    ensures Reordered(db, db') && ArtifactOf(db', h) == Some(Shown(r))
  {
    var i :| 0 <= i < |db.artifacts| && db.artifacts[i] == r;
    var left, right := db.artifacts[..i], db.artifacts[i + 1..];
    assert db.artifacts == left + [r] + right;
    db' := db.(artifacts := [r] + left + right);
    assert multiset(db'.artifacts) == multiset{r} + multiset(left) + multiset(right) == multiset(db.artifacts);
    ReorderedRows(db, db');
    FirstNewestWins(db'.artifacts, h);
  }

  /** All newest rows of a hash look the same in a graph. */
  ghost predicate NewestAgree(db: Tables) {
    forall h, a, b :: IsNewest(db.artifacts, h, a) && IsNewest(db.artifacts, h, b) ==> Shown(a) == Shown(b)
  }

  lemma SameAnswers(a: Tables, b: Tables, h: string)
    requires Reordered(a, b) && NewestAgree(a)
    ensures ArtifactOf(a, h) == ArtifactOf(b, h)
  {
    hide NewestRow;
    ReorderedRows(a, b);
    NewestRowIsNewest(a.artifacts, h);
    NewestRowIsNewest(b.artifacts, h);
  }

  lemma SameWalks(a: Tables, b: Tables, exclude: bool, root: string)
    requires a.edges == b.edges && a.tenants == b.tenants && forall h :: ArtifactOf(a, h) == ArtifactOf(b, h)
    ensures forall g :: IsUpstream(a, exclude, root, g) <==> IsUpstream(b, exclude, root, g)
  {
    hide ArtifactOf, Ascending;
    forall h ensures Dropped(a, exclude, h) == Dropped(b, exclude, h) {}
    forall x, y ensures Edge(a, x, y) == Edge(b, x, y) {}
    forall p ensures KeptPath(a, exclude, root, p) == KeptPath(b, exclude, root, p) { hide Edge, Dropped; }
    forall h ensures Kept(a, exclude, root, h) == Kept(b, exclude, root, h) { hide KeptPath; }
  }

  /** The order in which the database keeps its rows never shows in a graph if and
      only if, for every hash, its newest rows look the same. */
  lemma RowOrderHiddenIff(db: Tables)
    requires Folded(db)
    ensures (forall db', exclude, hash, g, g' ::
               && Reordered(db, db')
               && IsUpstream(db, exclude, Lower(hash), g) && IsUpstream(db', exclude, Lower(hash), g')
               ==> g == g')
       <==> NewestAgree(db)
  {
    hide IsUpstream, NewestRow;
    if NewestAgree(db) {
      forall db', exclude, hash, g, g' |
        Reordered(db, db') && IsUpstream(db, exclude, Lower(hash), g) && IsUpstream(db', exclude, Lower(hash), g')
        ensures g == g'
      {
        forall h ensures ArtifactOf(db, h) == ArtifactOf(db', h) { SameAnswers(db, db', h); }
        SameWalks(db, db', exclude, Lower(hash));
        UpstreamUnique(db, exclude, Lower(hash), g, g');
      }
    } else {
      var h, a, b :| IsNewest(db.artifacts, h, a) && IsNewest(db.artifacts, h, b) && Shown(a) != Shown(b);
      assert Lower(h) == h;
      var x := PutFirst(db, h, a);
      var y := PutFirst(db, h, b);
      var g := UpstreamExists(db, false, h);
      var gx := UpstreamExists(x, false, h);
      var gy := UpstreamExists(y, false, h);
      RootShown(x, h, gx);
      RootShown(y, h, gy);
      assert gx != gy;
    }
  }

  lemma RootShown(db: Tables, root: string, g: Graph)
    requires IsUpstream(db, false, root, g)
    ensures exists n :: n in g.nodes && n.contentHash == root
    ensures forall n :: n in g.nodes && n.contentHash == root ==> n.artifact == ArtifactOf(db, root)
  {
    KeptRoot(db, false, root);
    assert root in Hashes(g.nodes);
  }

  /** Two runs produce a hash in the same second: the order of their rows shows. */
  lemma TieShows(h: string, g: Graph, g': Graph)
    requires IsUpstream(TiedTable(h, false), false, h, g) && IsUpstream(TiedTable(h, true), false, h, g')
    ensures Reordered(TiedTable(h, false), TiedTable(h, true)) && g != g'
  {
    hide IsUpstream;
    var x := ArtifactRow("1", 0, "train", h, "checkpoint", Some(1));
    var y := x.(jobId := "2");
    FirstNewestWins([x, y], h);
    FirstNewestWins([y, x], h);
    hide NewestRow;
    RootShown(TiedTable(h, false), h, g);
    RootShown(TiedTable(h, true), h, g');
    assert multiset([x, y]) == multiset([y, x]);
  }

  function TiedTable(h: string, swapped: bool): Tables {
    var x := ArtifactRow("1", 0, "train", h, "checkpoint", Some(1));
    var y := x.(jobId := "2");
    Tables(map[], if swapped then [y, x] else [x, y], map[])
  }

  // ---- the export boundary ----

  /** Some run that produced this artifact belongs to a restricted tenant. */
  ghost predicate RestrictedProducer(db: Tables, h: string) {
    exists r :: r in db.artifacts && r.contentHash == h && RestrictedRun(db, r.jobId)
  }

  /** Every newest row of such an artifact is of a restricted tenant's run. */
  ghost predicate Sealed(db: Tables) {
    forall h, r :: RestrictedProducer(db, h) && IsNewest(db.artifacts, h, r) ==> RestrictedRun(db, r.jobId)
  }

  /** With exclusion on, nothing a restricted tenant's run produced is ever
      reported, whatever the root and whichever rows the database prefers, if and
      only if the newest rows of everything such runs produced are theirs too. */
  lemma NothingRestrictedLeaksIff(db: Tables)
    requires Folded(db)
    ensures (forall db', hash, g, h ::
               && Reordered(db, db') && IsUpstream(db', true, Lower(hash), g) && h in Hashes(g.nodes)
               ==> !RestrictedProducer(db, h))
       <==> Sealed(db)
  {
    hide IsUpstream, NewestRow, Hashes;
    if Sealed(db) {
      forall db', hash, g, h | Reordered(db, db') && IsUpstream(db', true, Lower(hash), g) && h in Hashes(g.nodes)
        ensures !RestrictedProducer(db, h)
      {
        ReportedIsOpen(db', Lower(hash), g, h);
        ReorderedRows(db, db');
        NewestRowIsNewest(db'.artifacts, h);
      }
    } else {
      var h, r :| RestrictedProducer(db, h) && IsNewest(db.artifacts, h, r) && !RestrictedRun(db, r.jobId);
      assert Lower(h) == h;
      var db' := PutFirst(db, h, r);
      var g := UpstreamExists(db', true, h);
      OpenRootReported(db', h, g);
    }
  }

  lemma ReportedIsOpen(db: Tables, root: string, g: Graph, h: string)
    requires IsUpstream(db, true, root, g) && h in Hashes(g.nodes)
    ensures !Restricted(db, h)
  {
    hide Restricted, Hashes;
    var p :| KeptPath(db, true, root, p) && p[|p| - 1] == h;
    assert !Dropped(db, true, p[|p| - 1]);
  }

  lemma OpenRootReported(db: Tables, root: string, g: Graph)
    requires IsUpstream(db, true, root, g) && !Restricted(db, root)
    ensures root in Hashes(g.nodes)
  {
    hide Restricted, Hashes;
    KeptRoot(db, true, root);
  }

  // ---- below a dropped vertex ----

  /** h is upstream of d, by one edge or more. */
  ghost predicate Below(db: Tables, d: string, h: string) {
    exists p :: IsWalk(db, p) && |p| > 1 && p[0] == d && p[|p| - 1] == h
  }

  ghost predicate IsWalk(db: Tables, p: seq<string>) { forall i :: 0 < i < |p| ==> Edge(db, p[i], p[i - 1]) }

  /** The walk from root comes to d and drops it. */
  ghost predicate Meets(db: Tables, root: string, d: string) { Restricted(db, d) && Found(db, true, root, d) }

  /** Some vertex reaches, through kept vertices only, both a consumer of a
      restricted artifact and something that artifact was made from. */
  ghost predicate SharedBelow(db: Tables) {
    exists r, c, d, h ::
      && Lower(r) == r && Kept(db, true, r, c) && Edge(db, d, c) && Restricted(db, d)
      && Below(db, d, h) && Kept(db, true, r, h)
  }

  /** Nothing below a dropped vertex is ever reported if and only if no vertex shares
      something with a restricted artifact it was made from. */
  lemma SubtreeStaysOutIff(db: Tables)
    ensures (forall hash, g, d, h ::
               && IsUpstream(db, true, Lower(hash), g) && Meets(db, Lower(hash), d) && Below(db, d, h)
               ==> h !in Hashes(g.nodes))
       <==> !SharedBelow(db)
  {
    hide Kept, Edge, Restricted, Below, Hashes;
    if SharedBelow(db) {
      var r, c, d, h :|
        && Lower(r) == r && Kept(db, true, r, c) && Edge(db, d, c) && Restricted(db, d)
        && Below(db, d, h) && Kept(db, true, r, h);
      var g := UpstreamExists(db, true, r);
      assert Meets(db, Lower(r), d) && h in Hashes(g.nodes);
    } else {
      forall hash, g, d, h | IsUpstream(db, true, Lower(hash), g) && Meets(db, Lower(hash), d) && Below(db, d, h)
        ensures h !in Hashes(g.nodes)
      {
        LowerIdempotent(hash);
        if Kept(db, true, Lower(hash), h) { RootNotDropped(db, Lower(hash), h); }
      }
    }
  }

  lemma RootNotDropped(db: Tables, root: string, h: string)
    requires Kept(db, true, root, h)
    ensures !Restricted(db, root)
  {
    hide Restricted;
    var p :| KeptPath(db, true, root, p) && p[|p| - 1] == h;
    assert !Dropped(db, true, p[0]);
  }

  /** An artifact made from x and from a clinical d that was itself made from x: d is
      dropped, and x is exported all the same. */
  lemma SharedInputEscapes(g: Graph)
    requires IsUpstream(SharedTable(), true, "r", g)
    ensures Meets(SharedTable(), "r", "d") && Below(SharedTable(), "d", "x") && "x" in Hashes(g.nodes)
  {
    hide Hashes, Tenants.Parse, Tenants.IsRestricted, Tenants.IsSegment, Lower;
    var db := SharedTable();
    SharedEdges();
    SharedDropped();
    hide Edge, Restricted, SharedTable;
    KeptRoot(db, true, "r");
    KeptStep(db, true, "r", "r", "x");
    assert IsWalk(db, ["d", "x"]);
  }

  function SharedTable(): Tables {
    Tables(map[EdgeKey("2", 0, "d") := "r", EdgeKey("2", 0, "x") := "r", EdgeKey("1", 0, "x") := "d"],
           [ArtifactRow("1", 0, "train", "d", "checkpoint", Some(1))],
           map["1" := "clinical"])
  }

  lemma SharedEdges()
    ensures Edge(SharedTable(), "d", "r") && Edge(SharedTable(), "x", "r") && Edge(SharedTable(), "x", "d")
  {
    assert Lower("r") == "r" && Lower("d") == "d";
    assert EdgeKey("2", 0, "d") in SharedTable().edges;
    assert EdgeKey("2", 0, "x") in SharedTable().edges;
    assert EdgeKey("1", 0, "x") in SharedTable().edges;
  }

  lemma SharedDropped()
    ensures var db := SharedTable(); Restricted(db, "d") && !Restricted(db, "r") && !Restricted(db, "x")
  {
    hide Tenants.Parse, Tenants.IsRestricted, Tenants.IsSegment;
    ParsedClinical();
    var row := SharedTable().artifacts[0];
    assert [row][..0] == [];
    assert NewestRow([row], "d") == Some(row) && NewestRow([row], "r") == None && NewestRow([row], "x") == None;
  }

  lemma ParsedClinical()
    ensures Tenants.Parse("clinical") == Some(Tenants.Tenant("clinical", None))
    ensures Tenants.Parse("default") == Some(Tenants.Tenant("default", None))
    ensures Tenants.IsRestricted(Tenants.Tenant("clinical", None))
    ensures !Tenants.IsRestricted(Tenants.Tenant("default", None))
  {
    hide Tenants.Parse, Tenants.IsRestricted, Tenants.IsSegment;
    Tenants.ClinicalIsRestricted();
    Tenants.ClinicalIsSegment();
    Tenants.DefaultIsSegment();
    Tenants.ParseInverts(Tenants.Tenant("clinical", None));
    Tenants.ParseInverts(Tenants.Tenant("default", None));
  }

  /** A clinical run produces an artifact, and a run of the default tenant produces
      it again a second later: it is exported. */
  lemma LaterRunUnseals(h: string, g: Graph)
    requires IsUpstream(ReproducedTable(h), true, h, g)
    ensures RestrictedProducer(ReproducedTable(h), h) && h in Hashes(g.nodes)
  {
    hide IsUpstream, Hashes, Tenants.Parse, Tenants.IsRestricted, Tenants.IsSegment;
    var db := ReproducedTable(h);
    ParsedClinical();
    SecondIsNewest(h);
    hide NewestRow;
    assert db.artifacts[0] in db.artifacts && RestrictedRun(db, db.artifacts[0].jobId);
    OpenRootReported(db, h, g);
  }

  function ReproducedTable(h: string): Tables {
    Tables(map[],
           [ArtifactRow("1", 0, "train", h, "checkpoint", Some(1)),
            ArtifactRow("2", 0, "train", h, "checkpoint", Some(2))],
           map["1" := "clinical", "2" := "default"])
  }

  lemma SecondIsNewest(h: string)
    ensures var rows := ReproducedTable(h).artifacts; NewestRow(rows, h) == Some(rows[1])
  {
    var rows := ReproducedTable(h).artifacts;
    assert rows[..1] == [rows[0]] && [rows[0]][..0] == [];
    assert NewestRow([rows[0]], h) == Some(rows[0]);
  }
}

/** The mesh cache and the mirroring of a MeshData tree as scene nodes
    (managers/mesh_manager.cpp).  Resolving the path against the resource
    directory and reading the file with the importer are outside the model:
    the operations receive the resolved path and the importer's scene.  A
    cache slot holds the MeshData tree as a value, or nothing once freed. */
module MeshManager {
  import opened Common
  import MeshData
  import SceneGraph

  /** The importer's flag for a scene it could not read completely. */
  const SceneFlagsIncomplete: bv32 := 0x1

  /** The dynamic type of the mesh component. */
  const MeshKind: string := "MeshComponent"

  const DefaultName: string := "Node"

  /** What the importer returns: a scene, with a root node or not, and its
      flags. */
  datatype Scene = Scene(root: Option<MeshData.AiNode>, flags: bv32)

  datatype LoadError = MeshLoadingFailed(path: string) | UnsupportedMesh | NullMeshData

  type Slot = Option<MeshData.MeshTree>

  /** No scene, no root node, or an incomplete scene. */
  predicate Invalid(scene: Option<Scene>)
  {
    scene.None? || scene.value.root.None? || scene.value.flags & SceneFlagsIncomplete != 0
  }

  /** What `MeshData::createFromScene` yields for a valid scene. */
  function FromScene(root: MeshData.AiNode): (r: Result<MeshData.MeshTree, LoadError>)
  {
    var start := MeshData.Start(root);
    if MeshData.NodeFillable(start) then Ok(MeshData.Tree(start)) else Err(UnsupportedMesh)
  }

  /** The outcome of one `loadMeshData` call: the result, the cache after
      it, and whether the importer ran. */
  datatype Loaded = Loaded(result: Result<Slot, LoadError>, cache: map<string, Slot>, loaded: bool)

  /** Loading the scene behind a path that is not cached, with the key the
      new tree is stored under. */
  function Fresh(cache: map<string, Slot>, key: string, resourcePath: string, scene: Option<Scene>): (f: Loaded)
    ensures f.loaded
    ensures Invalid(scene) ==> f.result == Err(MeshLoadingFailed(resourcePath))
    ensures f.result.Err? ==> f.cache == cache
    ensures f.result.Ok? ==> !Invalid(scene) && FromScene(scene.value.root.value).Ok? &&
                             f.result == Ok(Some(FromScene(scene.value.root.value).value)) &&
                             f.cache == cache[key := f.result.value]
    ensures !Invalid(scene) ==> (f.result.Ok? <==> FromScene(scene.value.root.value).Ok?)
  {
    if Invalid(scene) then Loaded(Err(MeshLoadingFailed(resourcePath)), cache, true)
    else match FromScene(scene.value.root.value)
      case Ok(tree) => Loaded(Ok(Some(tree)), cache[key := Some(tree)], true)
      case Err(e) => Loaded(Err(e), cache, true)
  }

  /** `loadMeshData` as written: the cache is probed with the path as given
      but a new tree is stored under the resolved path. */
  function LoadAsWritten(cache: map<string, Slot>, path: string, resourcePath: string, scene: Option<Scene>): (f: Loaded)
    ensures path in cache ==> f == Loaded(Ok(cache[path]), cache, false)
    ensures path !in cache ==> f == Fresh(cache, resourcePath, resourcePath, scene)
  {
    if path in cache then Loaded(Ok(cache[path]), cache, false) else Fresh(cache, resourcePath, resourcePath, scene)
  }

  /** `loadMeshData` with the store key the cache probe uses. */
  function Load(cache: map<string, Slot>, path: string, resourcePath: string, scene: Option<Scene>): (f: Loaded)
    ensures path in cache ==> f == Loaded(Ok(cache[path]), cache, false)
    ensures path !in cache ==> f == Fresh(cache, path, resourcePath, scene)
  {
    if path in cache then Loaded(Ok(cache[path]), cache, false) else Fresh(cache, path, resourcePath, scene)
  }

  /** As written, a path that differs from its resolved form is never
      served from the cache: loading it again runs the importer again. */
  lemma AsWrittenReloads(cache: map<string, Slot>, path: string, resourcePath: string, first: Option<Scene>, second: Option<Scene>)
    requires path != resourcePath && path !in cache
    ensures var f1 := LoadAsWritten(cache, path, resourcePath, first);
            var f2 := LoadAsWritten(f1.cache, path, resourcePath, second);
            f1.loaded && f2.loaded && f2.result == Fresh(f1.cache, resourcePath, resourcePath, second).result
  {
  }

  /** With matching keys, a tree once loaded is served from the cache: the
      second request runs no importer and returns the first tree. */
  lemma SecondLoadHits(cache: map<string, Slot>, path: string, resourcePath: string, first: Option<Scene>, second: Option<Scene>)
    requires Load(cache, path, resourcePath, first).result.Ok?
    ensures var f1 := Load(cache, path, resourcePath, first);
            var f2 := Load(f1.cache, path, resourcePath, second);
            !f2.loaded && f2.result == f1.result && f2.cache == f1.cache
  {
  }

  /** `freeMeshData`: a cached slot is emptied but its key stays. */
  function Freed(cache: map<string, Slot>, path: string): (r: map<string, Slot>)
    ensures r.Keys == cache.Keys
    ensures path in cache ==> r[path] == None
    ensures forall k :: k in cache && k != path ==> r[k] == cache[k]
  {
    if path in cache then cache[path := None] else cache
  }

  /** After freeing, loading the same path finds the emptied slot and
      returns nothing, without running the importer. */
  lemma FreedLoadsNothing(cache: map<string, Slot>, path: string, resourcePath: string, scene: Option<Scene>)
    requires path in cache
    ensures LoadAsWritten(Freed(cache, path), path, resourcePath, scene) == Loaded(Ok(None), Freed(cache, path), false)
    ensures Load(Freed(cache, path), path, resourcePath, scene) == Loaded(Ok(None), Freed(cache, path), false)
  {
  }

  // ---------------------------------------------------------------------
  // The node tree built from a MeshData tree

  /** A node tree as a value: a node's name, whether it has a mesh
      component, and its children. */
  datatype NodeTree = NodeTree(name: string, hasMesh: bool, children: seq<NodeTree>)

  /** The node tree `createNodeFromMeshData` should build: each node named
      after its data, with a mesh component exactly when the data has
      vertices, and one child per sub-mesh in order. */
  function Mirror(t: MeshData.MeshTree): (r: NodeTree)
    ensures r.name == t.name && r.hasMesh == (|t.vertices| > 0) && |r.children| == |t.subMeshes|
    ensures forall k :: 0 <= k < |t.subMeshes| ==> r.children[k] == Mirror(t.subMeshes[k])
    decreases t
  {
    NodeTree(t.name, |t.vertices| > 0,
             seq(|t.subMeshes|, k requires 0 <= k < |t.subMeshes| => Mirror(t.subMeshes[k])))
  }

  predicate HasMesh(rec: SceneGraph.NodeRec)
  {
    MeshKind in rec.components
  }

  /** Nodes `lo` up to `hi` are present, and each one's children lie
      further up that range. */
  predicate Grown(nodes: SceneGraph.Nodes, lo: nat, hi: nat)
  {
    forall n :: lo <= n < hi ==>
      n in nodes && forall k :: 0 <= k < |nodes[n].children| ==> n < nodes[n].children[k] < hi
  }

  /** The node tree below node `id` of a grown range. */
  function View(nodes: SceneGraph.Nodes, lo: nat, hi: nat, id: nat): NodeTree
    requires Grown(nodes, lo, hi) && lo <= id < hi
    decreases hi - id
  {
    var rec := nodes[id];
    NodeTree(rec.name, HasMesh(rec),
             seq(|rec.children|, k requires 0 <= k < |rec.children| => View(nodes, lo, hi, rec.children[k])))
  }

  /** Node `n` is complete: its name and mesh component are those of the
      tree it should stand for, and its children stand for that tree's
      children, in order. */
  predicate Built(nodes: SceneGraph.Nodes, want: map<nat, NodeTree>, hi: nat, n: nat)
    requires n in nodes && n in want
  {
    var rec := nodes[n];
    && rec.name == want[n].name && HasMesh(rec) == want[n].hasMesh
    && |rec.children| == |want[n].children|
    && forall k :: 0 <= k < |rec.children| ==>
         n < rec.children[k] < hi && rec.children[k] in want && want[rec.children[k]] == want[n].children[k]
  }

  /** Once every node of the range is complete, each one's view is the tree
      it should stand for. */
  lemma {:induction false} ViewComplete(nodes: SceneGraph.Nodes, want: map<nat, NodeTree>, lo: nat, hi: nat, id: nat)
    requires lo <= id < hi
    requires forall n :: lo <= n < hi ==> n in nodes && n in want && Built(nodes, want, hi, n)
    requires forall n :: n in want ==> lo <= n < hi
    ensures Grown(nodes, lo, hi)
    ensures View(nodes, lo, hi, id) == want[id]
    decreases hi - id
  {
    assert Grown(nodes, lo, hi) by {
      forall n, k | lo <= n < hi && 0 <= k < |nodes[n].children|
        ensures n < nodes[n].children[k] < hi
      {
        assert Built(nodes, want, hi, n);
      }
    }
    var rec := nodes[id];
    assert Built(nodes, want, hi, id);
    forall k | 0 <= k < |rec.children|
      ensures View(nodes, lo, hi, rec.children[k]) == want[id].children[k]
    {
      ViewComplete(nodes, want, lo, hi, rec.children[k]);
    }
    assert View(nodes, lo, hi, id).children == want[id].children;
  }

  /** A node made for a sub-mesh and not yet visited. */
  predicate Unvisited(rec: SceneGraph.NodeRec)
  {
    rec.children == [] && !HasMesh(rec)
  }

  /** What `Node::create` followed by `setParent(id)` makes: an unnamed
      node whose parent is `id`. */
  function ChildRec(id: nat, transform: SceneGraph.Component): SceneGraph.NodeRec
  {
    SceneGraph.NewNode(DefaultName, transform).(parent := Some(id))
  }

  lemma NewUnvisited(transform: SceneGraph.Component)
    requires transform.kind == SceneGraph.TransformKind
    ensures Unvisited(SceneGraph.NewNode(DefaultName, transform))
  {
    assert MeshKind != SceneGraph.TransformKind by {
      assert MeshKind[0] != SceneGraph.TransformKind[0];
    }
  }

  lemma ChildUnvisited(id: nat, transform: SceneGraph.Component)
    requires transform.kind == SceneGraph.TransformKind
    ensures Unvisited(ChildRec(id, transform))
  {
    NewUnvisited(transform);
  }

  /** A new node, made the last child of `id`. */
  method NewChild(graph: SceneGraph.Graph, id: nat) returns (c: nat)
    requires graph.Valid() && id in graph.nodes
    modifies graph
    ensures graph.Valid()
    ensures c == old(graph.nextId) && graph.nextId == c + 1 && c !in old(graph.nodes)
    ensures graph.componentsCount == old(graph.componentsCount) + 1
    ensures graph.nodes == old(graph.nodes)[c := ChildRec(id, SceneGraph.Component(SceneGraph.TransformKind, old(graph.componentsCount)))]
                                           [id := old(graph.nodes)[id].(children := old(graph.nodes)[id].children + [c])]
  {
    c := graph.Create(DefaultName);
    SceneGraph.ReparentedFresh(graph.nodes, c, id);
    graph.SetParent(c, id);
  }

  /** The visited node's own fields: the data's name, and a mesh component
      when the data has vertices. */
  method NameAndMesh(graph: SceneGraph.Graph, id: nat, t: MeshData.MeshTree)
    requires graph.Valid() && id in graph.nodes
    modifies graph
    ensures graph.Valid() && graph.nextId == old(graph.nextId)
    ensures graph.nodes.Keys == old(graph.nodes).Keys
    ensures forall n :: n in old(graph.nodes) && n != id ==> graph.nodes[n] == old(graph.nodes)[n]
    ensures graph.nodes[id].name == t.name
    ensures HasMesh(graph.nodes[id]) <==> HasMesh(old(graph.nodes)[id]) || |t.vertices| > 0
    ensures graph.nodes[id].children == old(graph.nodes)[id].children
    ensures graph.nodes[id].parent == old(graph.nodes)[id].parent
  {
    graph.SetName(id, t.name);
    if |t.vertices| > 0 {
      var _ := graph.CreateComponent(id, MeshKind);
    }
  }

  /** The nodes after `i` new children of `id` were made, numbered from
      `base`, whose transforms are numbered from `count`. */
  function Grow(nodes: SceneGraph.Nodes, id: nat, base: nat, i: nat, count: nat): (r: SceneGraph.Nodes)
    requires id in nodes
    ensures id in r
  {
    if i == 0 then nodes
    else
      var g := Grow(nodes, id, base, i - 1, count);
      var c := base + i - 1;
      var g1 := g[c := ChildRec(id, SceneGraph.Component(SceneGraph.TransformKind, count + i - 1))];
      g1[id := g1[id].(children := g1[id].children + [c])]
  }

  /** The nodes after growing: the old ones and the new range. */
  lemma {:induction false} GrowKeys(nodes: SceneGraph.Nodes, id: nat, base: nat, i: nat, count: nat)
    requires id in nodes
    ensures forall n :: n in Grow(nodes, id, base, i, count) <==> n in nodes || base <= n < base + i
  {
    if i > 0 {
      GrowKeys(nodes, id, base, i - 1, count);
    }
  }

  /** Growing changes no old node but `id`. */
  lemma {:induction false} GrowKeeps(nodes: SceneGraph.Nodes, id: nat, base: nat, i: nat, count: nat)
    requires id in nodes && forall n :: n in nodes ==> n < base
    ensures forall n :: n in nodes && n != id ==> n in Grow(nodes, id, base, i, count) && Grow(nodes, id, base, i, count)[n] == nodes[n]
  {
    GrowKeys(nodes, id, base, i, count);
    if i > 0 {
      GrowKeeps(nodes, id, base, i - 1, count);
    }
  }

  /** Node `id` gets the new range as further children. */
  lemma {:induction false} GrowParent(nodes: SceneGraph.Nodes, id: nat, base: nat, i: nat, count: nat)
    requires id in nodes && forall n :: n in nodes ==> n < base
    ensures Grow(nodes, id, base, i, count)[id] == nodes[id].(children := nodes[id].children + MeshData.Range(base, i))
  {
    if i == 0 {
      assert nodes[id].children + MeshData.Range(base, 0) == nodes[id].children;
    } else {
      GrowParent(nodes, id, base, i - 1, count);
      assert MeshData.Range(base, i) == MeshData.Range(base, i - 1) + [base + i - 1];
    }
  }

  /** Every new node is unvisited. */
  lemma {:induction false} GrowFresh(nodes: SceneGraph.Nodes, id: nat, base: nat, i: nat, count: nat)
    requires id in nodes && forall n :: n in nodes ==> n < base
    ensures forall n :: base <= n < base + i ==> n in Grow(nodes, id, base, i, count) && Unvisited(Grow(nodes, id, base, i, count)[n])
  {
    GrowKeys(nodes, id, base, i, count);
    if i > 0 {
      GrowFresh(nodes, id, base, i - 1, count);
      ChildUnvisited(id, SceneGraph.Component(SceneGraph.TransformKind, count + i - 1));
    }
  }

  lemma GrowFacts(nodes: SceneGraph.Nodes, id: nat, base: nat, i: nat, count: nat)
    requires id in nodes && forall n :: n in nodes ==> n < base
    ensures var g := Grow(nodes, id, base, i, count);
            && (forall n :: n in g <==> n in nodes || base <= n < base + i)
            && (forall n :: n in nodes && n != id ==> g[n] == nodes[n])
            && g[id] == nodes[id].(children := nodes[id].children + MeshData.Range(base, i))
            && (forall n :: base <= n < base + i ==> Unvisited(g[n]))
  {
    GrowKeys(nodes, id, base, i, count);
    GrowKeeps(nodes, id, base, i, count);
    GrowParent(nodes, id, base, i, count);
    GrowFresh(nodes, id, base, i, count);
  }

  lemma GrowStep(nodes: SceneGraph.Nodes, id: nat, base: nat, i: nat, count: nat,
                 before: SceneGraph.Nodes, c: nat, cnt: nat, after: SceneGraph.Nodes)
    requires id in nodes && c == base + i && cnt == count + i && c != id
    requires before == Grow(nodes, id, base, i, count) && id in before
    requires after == before[c := ChildRec(id, SceneGraph.Component(SceneGraph.TransformKind, cnt))]
                            [id := before[id].(children := before[id].children + [c])]
    ensures after == Grow(nodes, id, base, i + 1, count)
  {
  }

  /** The first `i` sub-meshes, each paired with the id numbered from `start`. */
  ghost predicate Numbered(added: seq<(nat, MeshData.MeshTree)>, start: nat, subs: seq<MeshData.MeshTree>, i: nat)
  {
    i <= |subs| && |added| == i && forall k :: 0 <= k < i ==> added[k] == (start + k, subs[k])
  }

  lemma NumberedStep(added: seq<(nat, MeshData.MeshTree)>, start: nat, subs: seq<MeshData.MeshTree>, i: nat, c: nat)
    requires Numbered(added, start, subs, i) && i < |subs| && c == start + i
    ensures Numbered(added + [(c, subs[i])], start, subs, i + 1)
  {
  }

  /** One new child of `id` per sub-mesh of `t`, in order. */
  method AddChildren(graph: SceneGraph.Graph, id: nat, t: MeshData.MeshTree) returns (added: seq<(nat, MeshData.MeshTree)>)
    requires graph.Valid() && id in graph.nodes
    modifies graph
    ensures graph.Valid()
    ensures graph.nextId == old(graph.nextId) + |t.subMeshes|
    ensures graph.nodes == Grow(old(graph.nodes), id, old(graph.nextId), |t.subMeshes|, old(graph.componentsCount))
    ensures |added| == |t.subMeshes| && forall k :: 0 <= k < |added| ==> added[k] == (old(graph.nextId) + k, t.subMeshes[k])
  {
    ghost var nodes0 := graph.nodes;
    ghost var start := graph.nextId;
    ghost var count0 := graph.componentsCount;
    added := [];
    assert id < graph.nextId;
    var i := 0;
    while i < |t.subMeshes|
      invariant 0 <= i <= |t.subMeshes|
      invariant graph.Valid() && graph.nextId == start + i
      invariant graph.componentsCount == count0 + i
      invariant graph.nodes == Grow(nodes0, id, start, i, count0)
      invariant Numbered(added, start, t.subMeshes, i)
    {
      ghost var before := graph.nodes;
      ghost var cnt := graph.componentsCount;
      var nextNode := NewChild(graph, id);
      GrowStep(nodes0, id, start, i, count0, before, nextNode, cnt, graph.nodes);
      NumberedStep(added, start, t.subMeshes, i, nextNode);
      added := added + [(nextNode, t.subMeshes[i])];
      i := i + 1;
    }
  }


  /** The visit of one dequeued node: it takes the data's name, gets a mesh
      component when the data has vertices, and gets one new child per
      sub-mesh, queued with it. */
  method MirrorEntry(graph: SceneGraph.Graph, id: nat, t: MeshData.MeshTree) returns (added: seq<(nat, MeshData.MeshTree)>)
    requires graph.Valid() && id in graph.nodes
    modifies graph
    ensures graph.Valid() && graph.nextId == old(graph.nextId) + |t.subMeshes|
    ensures Visited(old(graph.nodes), graph.nodes, old(graph.nextId), id, t, added)
  {
    NameAndMesh(graph, id, t);
    ghost var nodes1 := graph.nodes;
    ghost var next0 := graph.nextId;
    ghost var count0 := graph.componentsCount;
    added := AddChildren(graph, id, t);
    VisitedByGrow(old(graph.nodes), nodes1, graph.nodes, id, t, next0, count0, added);
  }

  lemma VisitedByGrow(nodes: SceneGraph.Nodes, nodes1: SceneGraph.Nodes, nodes': SceneGraph.Nodes, id: nat,
                      t: MeshData.MeshTree, hi: nat, count: nat, added: seq<(nat, MeshData.MeshTree)>)
    requires id in nodes && forall n :: n in nodes ==> n < hi
    requires nodes1.Keys == nodes.Keys && forall n :: n in nodes && n != id ==> nodes1[n] == nodes[n]
    requires nodes1[id].name == t.name && nodes1[id].parent == nodes[id].parent
    requires nodes1[id].children == nodes[id].children
    requires HasMesh(nodes1[id]) <==> HasMesh(nodes[id]) || |t.vertices| > 0
    requires nodes' == Grow(nodes1, id, hi, |t.subMeshes|, count)
    requires |added| == |t.subMeshes| && forall k :: 0 <= k < |added| ==> added[k] == (hi + k, t.subMeshes[k])
    ensures Visited(nodes, nodes', hi, id, t, added)
  {
    GrowFacts(nodes1, id, hi, |t.subMeshes|, count);
  }

  // ---------------------------------------------------------------------
  // The breadth-first loop

  function Ids(queue: seq<(nat, MeshData.MeshTree)>): (r: seq<nat>)
    ensures |r| == |queue| && forall k :: 0 <= k < |queue| ==> r[k] == queue[k].0
  {
    seq(|queue|, k requires 0 <= k < |queue| => queue[k].0)
  }

  /** Queue entry k names an unvisited node of the range that should stand
      for the mirror of its tree. */
  predicate Queued(nodes: SceneGraph.Nodes, want: map<nat, NodeTree>, lo: nat, hi: nat,
                   queue: seq<(nat, MeshData.MeshTree)>, k: nat)
    requires k < |queue|
  {
    var id := queue[k].0;
    lo <= id < hi && id in nodes && id in want && want[id] == Mirror(queue[k].1) && Unvisited(nodes[id])
  }

  predicate AllQueued(nodes: SceneGraph.Nodes, want: map<nat, NodeTree>, lo: nat, hi: nat,
                      queue: seq<(nat, MeshData.MeshTree)>)
  {
    forall k {:trigger Queued(nodes, want, lo, hi, queue, k)} :: 0 <= k < |queue| ==> Queued(nodes, want, lo, hi, queue, k)
  }

  predicate Increasing(queue: seq<(nat, MeshData.MeshTree)>)
  {
    forall k, k' :: 0 <= k < k' < |queue| ==> queue[k].0 < queue[k'].0
  }

  /** The loop invariant of `createNodeFromMeshData`, for nodes made from
      `lo` on: nodes that existed before are untouched, every node of the
      range off the queue is complete, and the queued ones are unvisited and
      stand for their trees. */
  ghost predicate MirrorInv(nodes0: SceneGraph.Nodes, nodes: SceneGraph.Nodes, want: map<nat, NodeTree>, lo: nat, hi: nat,
                      queue: seq<(nat, MeshData.MeshTree)>)
  {
    && (forall n :: n in nodes <==> n in nodes0 || lo <= n < hi)
    && (forall n :: n in nodes0 ==> n < lo && nodes[n] == nodes0[n])
    && (forall n :: n in want <==> lo <= n < hi)
    && AllQueued(nodes, want, lo, hi, queue)
    && Increasing(queue)
    && (forall n :: lo <= n < hi && n !in Ids(queue) ==> Built(nodes, want, hi, n))
  }

  /** What one call of `MirrorEntry` on the front entry of the queue did:
      `nodes'` is `nodes` with the entry's node named and given its mesh,
      and with one new unvisited child per sub-mesh, numbered from `hi`. */
  ghost predicate Visited(nodes: SceneGraph.Nodes, nodes': SceneGraph.Nodes, hi: nat, id: nat, t: MeshData.MeshTree,
                          added: seq<(nat, MeshData.MeshTree)>)
  {
    && id in nodes && id in nodes'
    && |added| == |t.subMeshes|
    && (forall k :: 0 <= k < |added| ==> added[k] == (hi + k, t.subMeshes[k]))
    && (forall n :: n in nodes' <==> n in nodes || hi <= n < hi + |added|)
    && (forall n :: n in nodes && n != id ==> nodes'[n] == nodes[n])
    && nodes'[id].name == t.name && nodes'[id].parent == nodes[id].parent
    && (HasMesh(nodes'[id]) <==> HasMesh(nodes[id]) || |t.vertices| > 0)
    && nodes'[id].children == nodes[id].children + MeshData.Range(hi, |t.subMeshes|)
    && (forall n :: hi <= n < hi + |added| ==> Unvisited(nodes'[n]))
  }

  lemma StepQueued(nodes0: SceneGraph.Nodes, nodes: SceneGraph.Nodes, want: map<nat, NodeTree>, lo: nat, hi: nat,
                   queue: seq<(nat, MeshData.MeshTree)>, nodes': SceneGraph.Nodes, added: seq<(nat, MeshData.MeshTree)>,
                   want': map<nat, NodeTree>, hi': nat, queue': seq<(nat, MeshData.MeshTree)>)
    requires MirrorInv(nodes0, nodes, want, lo, hi, queue) && |queue| > 0
    requires Visited(nodes, nodes', hi, queue[0].0, queue[0].1, added)
    requires want' == MirrorWant(want, hi, added) && hi' == hi + |added| && queue' == queue[1..] + added
    ensures AllQueued(nodes', want', lo, hi', queue')
  {
    var q' := queue';
    assert Queued(nodes, want, lo, hi, queue, 0);
    forall k | 0 <= k < |q'|
      ensures Queued(nodes', want', lo, hi', q', k)
    {
      if k < |queue| - 1 {
        assert q'[k] == queue[k + 1];
        assert Queued(nodes, want, lo, hi, queue, k + 1);
      } else {
        assert q'[k] == added[k - (|queue| - 1)];
      }
    }
  }

  lemma StepIncreasing(nodes0: SceneGraph.Nodes, nodes: SceneGraph.Nodes, want: map<nat, NodeTree>, lo: nat, hi: nat,
                       queue: seq<(nat, MeshData.MeshTree)>, added: seq<(nat, MeshData.MeshTree)>, queue': seq<(nat, MeshData.MeshTree)>)
    requires MirrorInv(nodes0, nodes, want, lo, hi, queue) && |queue| > 0
    requires forall k :: 0 <= k < |added| ==> added[k].0 == hi + k
    requires queue' == queue[1..] + added
    ensures Increasing(queue')
  {
    var q' := queue';
    forall k, k' | 0 <= k < k' < |q'|
      ensures q'[k].0 < q'[k'].0
    {
      if k' < |queue| - 1 {
        assert q'[k] == queue[k + 1] && q'[k'] == queue[k' + 1];
      } else if k < |queue| - 1 {
        assert q'[k] == queue[k + 1];
        assert Queued(nodes, want, lo, hi, queue, k + 1);
      }
    }
  }

  /** The visited node is complete once its children exist. */
  lemma BuiltVisited(nodes: SceneGraph.Nodes, nodes': SceneGraph.Nodes, want: map<nat, NodeTree>, hi: nat,
                     id: nat, t: MeshData.MeshTree, added: seq<(nat, MeshData.MeshTree)>)
    requires id < hi && id in want && want[id] == Mirror(t) && id in nodes && Unvisited(nodes[id])
    requires Visited(nodes, nodes', hi, id, t, added)
    ensures id in MirrorWant(want, hi, added)
    ensures Built(nodes', MirrorWant(want, hi, added), hi + |added|, id)
  {
    var want' := MirrorWant(want, hi, added);
    assert want'[id] == Mirror(t);
    assert nodes'[id].children == MeshData.Range(hi, |t.subMeshes|);
    forall k | 0 <= k < |nodes'[id].children|
      ensures id < nodes'[id].children[k] < hi + |added| && nodes'[id].children[k] in want'
      ensures want'[nodes'[id].children[k]] == want'[id].children[k]
    {
      assert nodes'[id].children[k] == hi + k;
      assert want'[hi + k] == Mirror(added[k].1);
    }
  }

  /** A complete node whose record is kept stays complete when the range
      grows and the wanted trees are only added to. */
  lemma BuiltKept(nodes: SceneGraph.Nodes, nodes': SceneGraph.Nodes, want: map<nat, NodeTree>, want': map<nat, NodeTree>,
                  hi: nat, hi': nat, n: nat)
    requires n in nodes && n in want && Built(nodes, want, hi, n)
    requires n in nodes' && nodes'[n] == nodes[n] && hi <= hi'
    requires forall m :: m in want ==> m in want' && want'[m] == want[m]
    ensures n in want' && Built(nodes', want', hi', n)
  {
  }

  /** A node off the new queue that is not the visited one was off the old
      queue. */
  lemma NotQueued(queue: seq<(nat, MeshData.MeshTree)>, added: seq<(nat, MeshData.MeshTree)>, n: nat)
    requires |queue| > 0 && n != queue[0].0 && n !in Ids(queue[1..] + added)
    ensures n !in Ids(queue)
  {
    assert Ids(queue) == [queue[0].0] + Ids(queue[1..]);
    assert Ids(queue[1..] + added) == Ids(queue[1..]) + Ids(added);
  }

  /** Every new node is on the new queue. */
  lemma NewQueued(queue: seq<(nat, MeshData.MeshTree)>, added: seq<(nat, MeshData.MeshTree)>, hi: nat, n: nat)
    requires |queue| > 0 && forall k :: 0 <= k < |added| ==> added[k].0 == hi + k
    requires hi <= n < hi + |added|
    ensures n in Ids(queue[1..] + added)
  {
    assert Ids(queue[1..] + added)[|queue| - 1 + (n - hi)] == n;
  }

  lemma StepBuilt(nodes0: SceneGraph.Nodes, nodes: SceneGraph.Nodes, want: map<nat, NodeTree>, lo: nat, hi: nat,
                  queue: seq<(nat, MeshData.MeshTree)>, nodes': SceneGraph.Nodes, added: seq<(nat, MeshData.MeshTree)>,
                  want': map<nat, NodeTree>, hi': nat, queue': seq<(nat, MeshData.MeshTree)>)
    requires MirrorInv(nodes0, nodes, want, lo, hi, queue) && |queue| > 0
    requires Visited(nodes, nodes', hi, queue[0].0, queue[0].1, added)
    requires want' == MirrorWant(want, hi, added) && hi' == hi + |added| && queue' == queue[1..] + added
    ensures forall n :: lo <= n < hi' && n !in Ids(queue') ==> Built(nodes', want', hi', n)
  {
    var q' := queue';
    assert forall m :: m in want ==> m in want' && want'[m] == want[m];
    forall n | lo <= n < hi' && n !in Ids(q')
      ensures Built(nodes', want', hi', n)
    {
      if n == queue[0].0 {
        assert Queued(nodes, want, lo, hi, queue, 0);
        BuiltVisited(nodes, nodes', want, hi, n, queue[0].1, added);
      } else if n < hi {
        NotQueued(queue, added, n);
        BuiltKept(nodes, nodes', want, want', hi, hi', n);
      } else {
        NewQueued(queue, added, hi, n);
      }
    }
  }

  /** The node set and the wanted trees grow by the new range. */
  lemma StepKeys(nodes0: SceneGraph.Nodes, nodes: SceneGraph.Nodes, want: map<nat, NodeTree>, lo: nat, hi: nat,
                 queue: seq<(nat, MeshData.MeshTree)>, nodes': SceneGraph.Nodes, added: seq<(nat, MeshData.MeshTree)>,
                 want': map<nat, NodeTree>, hi': nat, queue': seq<(nat, MeshData.MeshTree)>)
    requires MirrorInv(nodes0, nodes, want, lo, hi, queue) && |queue| > 0
    requires Visited(nodes, nodes', hi, queue[0].0, queue[0].1, added)
    requires want' == MirrorWant(want, hi, added) && hi' == hi + |added| && queue' == queue[1..] + added
    ensures forall n :: n in nodes' <==> n in nodes0 || lo <= n < hi'
    ensures forall n :: n in nodes0 ==> n < lo && nodes'[n] == nodes0[n]
    ensures forall n :: n in want' <==> lo <= n < hi'
  {
    assert Queued(nodes, want, lo, hi, queue, 0);
  }

  /** One visit keeps the loop invariant. */
  lemma MirrorStep(nodes0: SceneGraph.Nodes, nodes: SceneGraph.Nodes, want: map<nat, NodeTree>, lo: nat, hi: nat,
                   queue: seq<(nat, MeshData.MeshTree)>, nodes': SceneGraph.Nodes, added: seq<(nat, MeshData.MeshTree)>,
                   want': map<nat, NodeTree>, hi': nat, queue': seq<(nat, MeshData.MeshTree)>)
    requires MirrorInv(nodes0, nodes, want, lo, hi, queue) && |queue| > 0
    requires Visited(nodes, nodes', hi, queue[0].0, queue[0].1, added)
    requires want' == MirrorWant(want, hi, added) && hi' == hi + |added| && queue' == queue[1..] + added
    ensures MirrorInv(nodes0, nodes', want', lo, hi', queue')
  {
    StepKeys(nodes0, nodes, want, lo, hi, queue, nodes', added, want', hi', queue');
    StepQueued(nodes0, nodes, want, lo, hi, queue, nodes', added, want', hi', queue');
    StepIncreasing(nodes0, nodes, want, lo, hi, queue, added, queue');
    StepBuilt(nodes0, nodes, want, lo, hi, queue, nodes', added, want', hi', queue');
  }

  /** The trees the new nodes should stand for. */
  function MirrorWant(want: map<nat, NodeTree>, hi: nat, added: seq<(nat, MeshData.MeshTree)>): (r: map<nat, NodeTree>)
    ensures forall n :: n in r <==> n in want || hi <= n < hi + |added|
    ensures forall n :: n in want && !(hi <= n < hi + |added|) ==> r[n] == want[n]
    ensures forall k :: 0 <= k < |added| ==> r[hi + k] == Mirror(added[k].1)
    decreases |added|
  {
    if added == [] then want
    else
      var r := MirrorWant(want[hi := Mirror(added[0].1)], hi + 1, added[1..]);
      assert forall k :: 1 <= k < |added| ==> added[k] == added[1..][k - 1];
      r
  }

  function TreeSize(t: MeshData.MeshTree): nat
    decreases t, 1
  {
    1 + MeshData.Sum(SubSizes(t))
  }

  function SubSizes(t: MeshData.MeshTree): seq<nat>
    decreases t, 0
  {
    seq(|t.subMeshes|, k requires 0 <= k < |t.subMeshes| => TreeSize(t.subMeshes[k]))
  }

  function QueueSizes(queue: seq<(nat, MeshData.MeshTree)>): (r: seq<nat>)
    ensures |r| == |queue|
  {
    seq(|queue|, k requires 0 <= k < |queue| => TreeSize(queue[k].1))
  }

  /** Replacing the front entry by its sub-meshes leaves fewer trees to
      visit. */
  lemma QueueShrinks(queue: seq<(nat, MeshData.MeshTree)>, added: seq<(nat, MeshData.MeshTree)>)
    requires |queue| > 0 && |added| == |queue[0].1.subMeshes|
    requires forall k :: 0 <= k < |added| ==> added[k].1 == queue[0].1.subMeshes[k]
    ensures MeshData.Sum(QueueSizes(queue[1..] + added)) < MeshData.Sum(QueueSizes(queue))
  {
    assert QueueSizes(queue[1..] + added) == QueueSizes(queue)[1..] + SubSizes(queue[0].1);
    MeshData.SumAppend(QueueSizes(queue)[1..], SubSizes(queue[0].1));
  }

  /** The invariant holds once the root node is made. */
  lemma MirrorStart(nodes0: SceneGraph.Nodes, nodes: SceneGraph.Nodes, root: nat, transform: SceneGraph.Component,
                    tree: MeshData.MeshTree)
    requires forall n :: n in nodes0 ==> n < root
    requires transform.kind == SceneGraph.TransformKind
    requires nodes == nodes0[root := SceneGraph.NewNode(DefaultName, transform)]
    ensures MirrorInv(nodes0, nodes, map[root := Mirror(tree)], root, root + 1, [(root, tree)])
  {
    NewUnvisited(transform);
    assert Queued(nodes, map[root := Mirror(tree)], root, root + 1, [(root, tree)], 0);
    assert Ids([(root, tree)]) == [root];
  }

  /** One round of the loop: the front entry is visited and its new
      children are queued. */
  method MirrorVisit(graph: SceneGraph.Graph, ghost nodes0: SceneGraph.Nodes, ghost want: map<nat, NodeTree>, lo: nat,
                     queue: seq<(nat, MeshData.MeshTree)>)
    returns (queue': seq<(nat, MeshData.MeshTree)>, ghost want': map<nat, NodeTree>)
    requires graph.Valid() && MirrorInv(nodes0, graph.nodes, want, lo, graph.nextId, queue) && |queue| > 0
    modifies graph
    ensures graph.Valid() && old(graph.nextId) <= graph.nextId
    ensures MirrorInv(nodes0, graph.nodes, want', lo, graph.nextId, queue')
    ensures forall n :: n in want && n < old(graph.nextId) ==> n in want' && want'[n] == want[n]
    ensures forall n :: n in old(graph.nodes) && n != queue[0].0 ==> n in graph.nodes && graph.nodes[n] == old(graph.nodes)[n]
    ensures queue[0].0 in old(graph.nodes) && queue[0].0 in graph.nodes
    ensures graph.nodes[queue[0].0].parent == old(graph.nodes)[queue[0].0].parent
    ensures MeshData.Sum(QueueSizes(queue')) < MeshData.Sum(QueueSizes(queue))
  {
    assert Queued(graph.nodes, want, lo, graph.nextId, queue, 0);
    ghost var nodes := graph.nodes;
    ghost var hi := graph.nextId;
    var added := MirrorEntry(graph, queue[0].0, queue[0].1);
    queue' := queue[1..] + added;
    want' := MirrorWant(want, hi, added);
    MirrorStep(nodes0, nodes, want, lo, hi, queue, graph.nodes, added, want', graph.nextId, queue');
    QueueShrinks(queue, added);
  }

  /** The node-building loop of `createNodeFromMeshData`: a new node for
      the root of the tree, then one new child per sub-mesh, breadth first.
      The new nodes are the ids from the old `nextId` on; their tree
      mirrors the data's, and no node that existed before changes. */
  method MirrorTree(graph: SceneGraph.Graph, tree: MeshData.MeshTree) returns (root: nat)
    requires graph.Valid()
    modifies graph
    ensures graph.Valid()
    ensures root == old(graph.nextId) && root < graph.nextId && Grown(graph.nodes, root, graph.nextId)
    ensures View(graph.nodes, root, graph.nextId, root) == Mirror(tree)
    ensures forall n :: n in old(graph.nodes) ==> n in graph.nodes && graph.nodes[n] == old(graph.nodes)[n]
    ensures graph.nodes[root].parent == None
  {
    ghost var nodes0 := graph.nodes;
    ghost var count0 := graph.componentsCount;
    root := graph.Create(DefaultName);
    var queue := [(root, tree)];
    ghost var want: map<nat, NodeTree> := map[root := Mirror(tree)];
    MirrorStart(nodes0, graph.nodes, root, SceneGraph.Component(SceneGraph.TransformKind, count0), tree);
    while queue != []
      invariant graph.Valid() && root < graph.nextId && root in graph.nodes && graph.nodes[root].parent == None
      invariant MirrorInv(nodes0, graph.nodes, want, root, graph.nextId, queue)
      invariant root in want && want[root] == Mirror(tree)
      decreases MeshData.Sum(QueueSizes(queue))
    {
      queue, want := MirrorVisit(graph, nodes0, want, root, queue);
    }
    ViewComplete(graph.nodes, want, root, graph.nextId, root);
  }

  class MeshManager {
    var meshes: map<string, Slot>

    constructor ()
      ensures meshes == map[]
    {
      meshes := map[];
    }

    /** `loadMeshData`: a cached slot is returned as it is; otherwise the
        scene is read, checked, turned into a MeshData tree and stored under
        the key the cache is probed with (see `AsWrittenReloads` for the key
        the source stores under). */
    method LoadMeshData(path: string, resourcePath: string, scene: Option<Scene>)
      returns (r: Result<Slot, LoadError>, ghost loaded: bool)
      modifies `meshes
      ensures Loaded(r, meshes, loaded) == Load(old(meshes), path, resourcePath, scene)
    {
      if path in meshes {
        return Ok(meshes[path]), false;
      }
      loaded := true;
      if scene.None? || scene.value.root.None? || scene.value.flags & SceneFlagsIncomplete != 0 {
        return Err(MeshLoadingFailed(resourcePath)), loaded;
      }
      var parsed := MeshData.ParseScene(scene.value.root.value);
      if parsed.Err? {
        return Err(UnsupportedMesh), loaded;
      }
      var meshData := MeshData.Denote(parsed.value, 0);
      meshes := meshes[path := Some(meshData)];
      r := Ok(Some(meshData));
    }

    /** `freeMeshData`. */
    method FreeMeshData(path: string)
      modifies `meshes
      ensures meshes == Freed(old(meshes), path)
    {
      if path in meshes {
        meshes := meshes[path := None];
      }
    }

    /** `createNodeFromMeshData`: load the tree, then mirror it as new
        nodes.  An emptied slot is dereferenced by the source; here it is
        the error `NullMeshData`. */
    method CreateNodeFromMeshData(graph: SceneGraph.Graph, path: string, resourcePath: string, scene: Option<Scene>)
      returns (r: Result<nat, LoadError>)
      requires graph.Valid()
      modifies this, graph
      ensures graph.Valid()
      ensures meshes == Load(old(meshes), path, resourcePath, scene).cache
      ensures r.Err? ==> graph.nodes == old(graph.nodes) && graph.nextId == old(graph.nextId) &&
                         graph.componentsCount == old(graph.componentsCount)
      ensures var f := Load(old(meshes), path, resourcePath, scene);
              && (f.result.Err? ==> r == Err(f.result.error))
              && (f.result == Ok(None) ==> r == Err(NullMeshData))
              && (f.result.Ok? && f.result.value.Some? ==>
                    && r == Ok(old(graph.nextId)) && r.value < graph.nextId
                    && Grown(graph.nodes, r.value, graph.nextId)
                    && View(graph.nodes, r.value, graph.nextId, r.value) == Mirror(f.result.value.value)
                    && forall n :: n in old(graph.nodes) ==> n in graph.nodes && graph.nodes[n] == old(graph.nodes)[n])
    {
      var loaded, _ := LoadMeshData(path, resourcePath, scene);
      if loaded.Err? {
        return Err(loaded.error);
      }
      if loaded.value.None? {
        return Err(NullMeshData);
      }
      var root := MirrorTree(graph, loaded.value.value);
      r := Ok(root);
    }
  }
}

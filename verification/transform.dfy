/** The transform component (entities/components/transform.cpp): each node's
    local position, orientation and scale, the absolute position and scale
    derived from its parent's, and the two flags that say what must be
    recomputed.  A setter marks its transform `dirty` and `subtreeDirty`
    and climbs the ancestors, setting `subtreeDirty` until it meets one
    that already has it; `recalculate` recomputes a dirty transform from
    its parent and, as written, descends only into the children of a
    `subtreeDirty` one (`Recalc` with `corrected` false).  The class below
    also descends below a transform that is dirty itself (`corrected` true):
    `StaleGrandchild` shows what the written rule leaves stale.

    The transforms of the scene live in one map from node id to record,
    and the tree they follow is passed in as `Links`, read off the scene
    graph by `LinksOf`.  Orientation composition, the matrix and the
    direction are floating-point geometry and are not modelled. */
module Transform {
  import opened Common
  import SceneGraph

  type NodeId = SceneGraph.NodeId

  /** The part of one transform the model keeps. */
  datatype Tf = Tf(position: Vec3, orientation: Quat, scale: Vec3,
                   absPosition: Vec3, absScale: Vec3,
                   dirty: bool, subtreeDirty: bool)

  /** A new transform: unit scale, at the origin, not rotated, clean. */
  const Initial: Tf := Tf(Zero3, IdentityQuat, One3, Zero3, One3, false, false)

  type Tfs = map<NodeId, Tf>

  /** The tree the transforms follow: the live parent of each node that has
      one, and the children of every node. */
  datatype Links = Links(parent: map<NodeId, NodeId>, children: map<NodeId, seq<NodeId>>)

  function LinksOf(nodes: SceneGraph.Nodes): (l: Links)
    ensures l.children.Keys == nodes.Keys
    ensures forall n :: n in nodes ==> l.children[n] == nodes[n].children
    ensures forall n :: n in l.parent <==> n in nodes && SceneGraph.Parent(nodes, n).Some?
    ensures forall n :: n in l.parent ==> SceneGraph.Parent(nodes, n) == Some(l.parent[n])
  {
    Links(map n | n in nodes && SceneGraph.Parent(nodes, n).Some? :: SceneGraph.Parent(nodes, n).value,
          map n | n in nodes :: nodes[n].children)
  }

  function ParentOf(l: Links, n: NodeId): Option<NodeId>
  {
    if n in l.parent then Some(l.parent[n]) else None
  }

  /** Every node has a transform, and so does every parent. */
  predicate Framed(l: Links, tfs: Tfs)
  {
    && tfs.Keys == l.children.Keys
    && forall n :: n in l.parent ==> n in tfs && l.parent[n] in tfs
  }

  /** In a linked scene graph every child's parent is the node listing it,
      once, and every node with a live parent has a transform. */
  lemma LinkedFramed(nodes: SceneGraph.Nodes)
    requires SceneGraph.Linked(nodes)
    ensures var l := LinksOf(nodes);
            && Framed(l, map n | n in nodes :: Initial)
            && forall n, k :: n in l.children && 0 <= k < |l.children[n]| ==>
                 l.children[n][k] in l.parent && l.parent[l.children[n][k]] == n
  {
    var l := LinksOf(nodes);
    forall n, k | n in l.children && 0 <= k < |l.children[n]|
      ensures l.children[n][k] in l.parent && l.parent[l.children[n][k]] == n
    {
      assert SceneGraph.ChildLinked(nodes, n);
      assert SceneGraph.Parent(nodes, l.children[n][k]) == Some(n);
    }
  }

  // ---------------------------------------------------------------------
  // markAsDirty

  /** The transforms that do not have `subtreeDirty`: the climb shrinks it. */
  ghost function Clean(tfs: Tfs): set<NodeId>
  {
    set n | n in tfs && !tfs[n].subtreeDirty
  }

  lemma CleanShrinks(tfs: Tfs, c: NodeId)
    requires c in tfs && !tfs[c].subtreeDirty
    ensures |Clean(tfs[c := tfs[c].(subtreeDirty := true)])| < |Clean(tfs)|
  {
    assert Clean(tfs[c := tfs[c].(subtreeDirty := true)]) == Clean(tfs) - {c};
  }

  /** The `k`-th ancestor of `n`, if the chain of parents is that long. */
  function AncestorAt(l: Links, n: NodeId, k: nat): Option<NodeId>
    decreases k
  {
    if k == 0 then Some(n)
    else if n in l.parent then AncestorAt(l, l.parent[n], k - 1)
    else None
  }

  /** The nodes from `c` up to its `k`-th ancestor all exist and none of
      them has `subtreeDirty`. */
  ghost predicate CleanUpTo(l: Links, tfs: Tfs, c: NodeId, k: nat)
  {
    forall j :: 0 <= j <= k ==>
      AncestorAt(l, c, j).Some? && AncestorAt(l, c, j).value in tfs && !tfs[AncestorAt(l, c, j).value].subtreeDirty
  }

  /** `n` is on the climb from `cur`: an ancestor of it (or `cur` itself)
      reached through nodes none of which has `subtreeDirty` yet. */
  ghost predicate OnClimb(l: Links, tfs: Tfs, cur: Option<NodeId>, n: NodeId)
  {
    cur.Some? && exists k: nat :: AncestorAt(l, cur.value, k) == Some(n) && CleanUpTo(l, tfs, cur.value, k)
  }

  /** Flagging more transforms only shortens the climb. */
  lemma OnClimbFewer(l: Links, tfs: Tfs, more: Tfs, cur: Option<NodeId>)
    requires more.Keys == tfs.Keys
    requires forall n :: n in tfs && tfs[n].subtreeDirty ==> more[n].subtreeDirty
    ensures forall n: NodeId :: OnClimb(l, more, cur, n) ==> OnClimb(l, tfs, cur, n)
  {
    forall n: NodeId | OnClimb(l, more, cur, n) ensures OnClimb(l, tfs, cur, n) {
      var k: nat :| AncestorAt(l, cur.value, k) == Some(n) && CleanUpTo(l, more, cur.value, k);
      assert CleanUpTo(l, tfs, cur.value, k);
    }
  }

  /** A clean node's climb continues through its parent's. */
  lemma OnClimbUp(l: Links, tfs: Tfs, c: NodeId)
    requires c in tfs && !tfs[c].subtreeDirty
    ensures OnClimb(l, tfs, Some(c), c)
    ensures forall n: NodeId :: OnClimb(l, tfs, ParentOf(l, c), n) ==> OnClimb(l, tfs, Some(c), n)
  {
    assert AncestorAt(l, c, 0) == Some(c) && CleanUpTo(l, tfs, c, 0);
    forall n: NodeId | OnClimb(l, tfs, ParentOf(l, c), n) ensures OnClimb(l, tfs, Some(c), n) {
      var p := l.parent[c];
      var k: nat :| AncestorAt(l, p, k) == Some(n) && CleanUpTo(l, tfs, p, k);
      assert AncestorAt(l, c, k + 1) == Some(n);
      forall j | 0 <= j <= k + 1
        ensures AncestorAt(l, c, j).Some? && AncestorAt(l, c, j).value in tfs && !tfs[AncestorAt(l, c, j).value].subtreeDirty
      {
        if j > 0 {
          assert AncestorAt(l, c, j) == AncestorAt(l, p, j - 1);
        }
      }
    }
  }

  /** Flagging a clean `c` and climbing on from its parent is a climb
      from `c`: the frame carries over, and nothing off the climb from `c`
      is flagged. */
  lemma ClimbStep(l: Links, tfs: Tfs, c: NodeId, marked: Tfs, r: Tfs)
    requires c in tfs && !tfs[c].subtreeDirty
    requires marked == tfs[c := tfs[c].(subtreeDirty := true)] && r.Keys == tfs.Keys
    requires forall n :: n in marked ==> r[n] == marked[n].(subtreeDirty := r[n].subtreeDirty)
    requires forall n :: n in marked && marked[n].subtreeDirty ==> r[n].subtreeDirty
    requires forall n :: n in marked && r[n].subtreeDirty && !marked[n].subtreeDirty ==>
               OnClimb(l, marked, ParentOf(l, c), n)
    ensures forall n :: n in tfs ==> r[n] == tfs[n].(subtreeDirty := r[n].subtreeDirty)
    ensures forall n :: n in tfs && tfs[n].subtreeDirty ==> r[n].subtreeDirty
    ensures r[c].subtreeDirty
    ensures forall n :: n in tfs && r[n].subtreeDirty && !tfs[n].subtreeDirty ==> OnClimb(l, tfs, Some(c), n)
  {
    OnClimbFewer(l, tfs, marked, ParentOf(l, c));
    OnClimbUp(l, tfs, c);
  }

  /** The climb from `cur`: every ancestor up to the first one that already
      has `subtreeDirty` (or past the root) gets it.  Nothing else changes. */
  function Mark(l: Links, tfs: Tfs, cur: Option<NodeId>): (r: Tfs)
    requires Framed(l, tfs) && (cur.Some? ==> cur.value in tfs)
    ensures r.Keys == tfs.Keys
    ensures forall n :: n in tfs ==> r[n] == tfs[n].(subtreeDirty := r[n].subtreeDirty)
    ensures forall n :: n in tfs && tfs[n].subtreeDirty ==> r[n].subtreeDirty
    ensures cur.Some? ==> r[cur.value].subtreeDirty
    ensures forall n :: n in tfs && r[n].subtreeDirty && !tfs[n].subtreeDirty ==> OnClimb(l, tfs, cur, n)
    decreases |Clean(tfs)|
  {
    match cur
    case None => tfs
    case Some(c) =>
      if tfs[c].subtreeDirty then tfs
      else
        var marked := tfs[c := tfs[c].(subtreeDirty := true)];
        CleanShrinks(tfs, c);
        var r := Mark(l, marked, ParentOf(l, c));
        ClimbStep(l, tfs, c, marked, r);
        r
  }

  /** `markAsDirty` on `id`. */
  function DirtyMarked(l: Links, tfs: Tfs, id: NodeId): (r: Tfs)
    requires Framed(l, tfs) && id in tfs
    ensures r.Keys == tfs.Keys
    ensures r[id] == tfs[id].(dirty := true, subtreeDirty := true)
    ensures forall n :: n in tfs && n != id ==> r[n] == tfs[n].(subtreeDirty := r[n].subtreeDirty)
    ensures forall n :: n in tfs && tfs[n].subtreeDirty ==> r[n].subtreeDirty
    ensures id in l.parent ==> r[l.parent[id]].subtreeDirty
    ensures forall n :: n in tfs && n != id && r[n].subtreeDirty && !tfs[n].subtreeDirty ==>
              OnClimb(l, tfs, ParentOf(l, id), n)
  {
    var marked := tfs[id := tfs[id].(dirty := true, subtreeDirty := true)];
    OnClimbFewer(l, tfs, marked, ParentOf(l, id));
    Mark(l, marked, ParentOf(l, id))
  }

  /** Every transform with `subtreeDirty` has a parent with it too. */
  ghost predicate Closed(l: Links, tfs: Tfs)
    requires Framed(l, tfs)
  {
    forall n :: n in l.parent && tfs[n].subtreeDirty ==> tfs[l.parent[n]].subtreeDirty
  }

  /** The climb repairs the one place (`last`, whose parent is `cur`) where
      the closure may fail. */
  lemma {:induction false} MarkCloses(l: Links, tfs: Tfs, last: NodeId, cur: Option<NodeId>)
    requires Framed(l, tfs) && last in tfs && tfs[last].subtreeDirty && cur == ParentOf(l, last)
    requires forall n :: n in l.parent && n != last && tfs[n].subtreeDirty ==> tfs[l.parent[n]].subtreeDirty
    ensures Closed(l, Mark(l, tfs, cur))
    decreases |Clean(tfs)|
  {
    match cur
    case None =>
    case Some(c) =>
      if !tfs[c].subtreeDirty {
        CleanShrinks(tfs, c);
        MarkCloses(l, tfs[c := tfs[c].(subtreeDirty := true)], c, ParentOf(l, c));
      }
  }

  /** `markAsDirty` keeps the closure. */
  lemma MarkKeepsClosed(l: Links, tfs: Tfs, id: NodeId)
    requires Framed(l, tfs) && id in tfs && Closed(l, tfs)
    ensures Closed(l, DirtyMarked(l, tfs, id))
  {
    MarkCloses(l, tfs[id := tfs[id].(dirty := true, subtreeDirty := true)], id, ParentOf(l, id));
  }

  lemma {:induction false} ClosedAncestors(l: Links, tfs: Tfs, n: NodeId, k: nat)
    requires Framed(l, tfs) && Closed(l, tfs) && n in tfs && tfs[n].subtreeDirty
    ensures AncestorAt(l, n, k).Some? ==>
              AncestorAt(l, n, k).value in tfs && tfs[AncestorAt(l, n, k).value].subtreeDirty
    decreases k
  {
    if k > 0 && n in l.parent {
      ClosedAncestors(l, tfs, l.parent[n], k - 1);
    }
  }

  /** Under the closure, after `markAsDirty` the node is dirty and every
      ancestor of it has `subtreeDirty`, although the climb may stop early. */
  lemma MarkReachesAncestors(l: Links, tfs: Tfs, id: NodeId, k: nat)
    requires Framed(l, tfs) && id in tfs && Closed(l, tfs)
    ensures var r := DirtyMarked(l, tfs, id);
            && r[id].dirty
            && (AncestorAt(l, id, k).Some? ==>
                  AncestorAt(l, id, k).value in r && r[AncestorAt(l, id, k).value].subtreeDirty)
  {
    MarkKeepsClosed(l, tfs, id);
    ClosedAncestors(l, DirtyMarked(l, tfs, id), id, k);
  }

  // ---------------------------------------------------------------------
  // setters: markAsDirty, then the field

  function Moved(l: Links, tfs: Tfs, id: NodeId, p: Vec3): (r: Tfs)
    requires Framed(l, tfs) && id in tfs
    ensures r.Keys == tfs.Keys
    ensures r[id] == tfs[id].(position := p, dirty := true, subtreeDirty := true)
    ensures forall n :: n in tfs && n != id ==> r[n] == tfs[n].(subtreeDirty := r[n].subtreeDirty)
  {
    var m := DirtyMarked(l, tfs, id);
    m[id := m[id].(position := p)]
  }

  function Turned(l: Links, tfs: Tfs, id: NodeId, q: Quat): (r: Tfs)
    requires Framed(l, tfs) && id in tfs
    ensures r.Keys == tfs.Keys
    ensures r[id] == tfs[id].(orientation := q, dirty := true, subtreeDirty := true)
    ensures forall n :: n in tfs && n != id ==> r[n] == tfs[n].(subtreeDirty := r[n].subtreeDirty)
  {
    var m := DirtyMarked(l, tfs, id);
    m[id := m[id].(orientation := q)]
  }

  function Scaled(l: Links, tfs: Tfs, id: NodeId, s: Vec3): (r: Tfs)
    requires Framed(l, tfs) && id in tfs
    ensures r.Keys == tfs.Keys
    ensures r[id] == tfs[id].(scale := s, dirty := true, subtreeDirty := true)
    ensures forall n :: n in tfs && n != id ==> r[n] == tfs[n].(subtreeDirty := r[n].subtreeDirty)
  {
    var m := DirtyMarked(l, tfs, id);
    m[id := m[id].(scale := s)]
  }

  // ---------------------------------------------------------------------
  // recalculate

  /** A tree order on the links: every child's parent is the node listing
      it, no child is listed twice, and a parent ranks below its children.
      The rank is a witness that the tree has no cycle. */
  ghost predicate Ranked(l: Links, rank: map<NodeId, nat>, bound: nat)
  {
    && (forall n :: n in l.children ==> n in rank && rank[n] < bound && SceneGraph.NoDup(l.children[n]))
    && (forall n, k :: n in l.children && 0 <= k < |l.children[n]| ==>
          l.children[n][k] in l.children && l.children[n][k] in l.parent && l.parent[l.children[n][k]] == n)
    && (forall n :: n in l.parent ==> n in l.children && l.parent[n] in l.children && rank[l.parent[n]] < rank[n])
  }

  /** A transform recomputed from its parent's absolute position and scale. */
  function Recomputed(t: Tf, p: Tf): Tf
  {
    t.(absPosition := Add(p.absPosition, t.position), absScale := Mul(p.absScale, t.scale))
  }

  /** The node's own step of `recalculate`. */
  ghost function Local(l: Links, tfs: Tfs, id: NodeId, rank: map<NodeId, nat>, bound: nat): Tf
    requires Ranked(l, rank, bound) && tfs.Keys == l.children.Keys && id in tfs
    requires tfs[id].dirty ==> id in l.parent
  {
    if tfs[id].dirty then Recomputed(tfs[id], tfs[l.parent[id]]) else tfs[id]
  }

  /** `recalculate` on `id`.  As written (`corrected` false) the children
      are visited when the node has `subtreeDirty`; the corrected version
      also visits them when the node itself is dirty. */
  ghost function Recalc(l: Links, tfs: Tfs, id: NodeId, rank: map<NodeId, nat>, bound: nat, corrected: bool): (r: Tfs)
    requires Ranked(l, rank, bound) && tfs.Keys == l.children.Keys && id in tfs
    requires tfs[id].dirty ==> id in l.parent
    ensures r.Keys == tfs.Keys
    decreases bound - rank[id], 1
  {
    var tfs1: Tfs := tfs[id := Local(l, tfs, id, rank, bound)];
    var visit := if corrected then tfs[id].dirty || tfs[id].subtreeDirty else tfs[id].subtreeDirty;
    var tfs2 := Visit(l, tfs1, id, visit, tfs[id].dirty, rank, bound, corrected);
    tfs2[id := tfs2[id].(dirty := false, subtreeDirty := false)]
  }

  /** The children of `id`, when they are visited at all. */
  ghost function Visit(l: Links, tfs: Tfs, id: NodeId, visit: bool, dirty: bool,
                       rank: map<NodeId, nat>, bound: nat, corrected: bool): (r: Tfs)
    requires Ranked(l, rank, bound) && tfs.Keys == l.children.Keys && id in tfs
    ensures r.Keys == tfs.Keys
    decreases bound - rank[id], 0, |l.children[id]| + 1
  {
    if visit then Children(l, tfs, id, 0, dirty, rank, bound, corrected) else tfs
  }

  /** The loop over the children of `id` from the `k`-th on: each child
      takes the parent's `dirty` flag and is recalculated. */
  ghost function Children(l: Links, tfs: Tfs, id: NodeId, k: nat, dirty: bool,
                          rank: map<NodeId, nat>, bound: nat, corrected: bool): (r: Tfs)
    requires Ranked(l, rank, bound) && tfs.Keys == l.children.Keys && id in tfs && k <= |l.children[id]|
    ensures r.Keys == tfs.Keys
    decreases bound - rank[id], 0, |l.children[id]| - k
  {
    if k == |l.children[id]| then tfs
    else
      var c := l.children[id][k];
      var tfs1: Tfs := tfs[c := tfs[c].(dirty := tfs[c].dirty || dirty)];
      Children(l, Recalc(l, tfs1, c, rank, bound, corrected), id, k + 1, dirty, rank, bound, corrected)
  }

  // ---------------------------------------------------------------------
  // Subtrees

  /** The nodes of the subtree under `id`, `id` included. */
  ghost function Desc(l: Links, id: NodeId, rank: map<NodeId, nat>, bound: nat): set<NodeId>
    requires Ranked(l, rank, bound) && id in l.children
    decreases bound - rank[id], 1
  {
    {id} + Below(l, id, 0, rank, bound)
  }

  /** The subtrees of the children of `id` from the `k`-th on. */
  ghost function Below(l: Links, id: NodeId, k: nat, rank: map<NodeId, nat>, bound: nat): set<NodeId>
    requires Ranked(l, rank, bound) && id in l.children && k <= |l.children[id]|
    decreases bound - rank[id], 0, |l.children[id]| - k
  {
    if k == |l.children[id]| then {}
    else Desc(l, l.children[id][k], rank, bound) + Below(l, id, k + 1, rank, bound)
  }

  lemma {:induction false} BelowHas(l: Links, id: NodeId, k: nat, j: nat, rank: map<NodeId, nat>, bound: nat)
    requires Ranked(l, rank, bound) && id in l.children && k <= j < |l.children[id]|
    ensures Desc(l, l.children[id][j], rank, bound) <= Below(l, id, k, rank, bound)
    decreases j - k
  {
    if k < j {
      BelowHas(l, id, k + 1, j, rank, bound);
    }
  }

  lemma {:induction false} BelowWhich(l: Links, id: NodeId, k: nat, n: NodeId, rank: map<NodeId, nat>, bound: nat)
    returns (j: nat)
    requires Ranked(l, rank, bound) && id in l.children && k <= |l.children[id]|
    requires n in Below(l, id, k, rank, bound)
    ensures k <= j < |l.children[id]| && n in Desc(l, l.children[id][j], rank, bound)
    decreases |l.children[id]| - k
  {
    assert k < |l.children[id]|;
    if n in Desc(l, l.children[id][k], rank, bound) {
      j := k;
    } else {
      j := BelowWhich(l, id, k + 1, n, rank, bound);
    }
  }

  /** Every node under `x` is a node, ranked at least as high as `x`. */
  lemma {:induction false} DescRank(l: Links, x: NodeId, n: NodeId, rank: map<NodeId, nat>, bound: nat)
    requires Ranked(l, rank, bound) && x in l.children
    ensures n in Desc(l, x, rank, bound) ==> n in l.children && rank[x] <= rank[n]
    decreases bound - rank[x]
  {
    if n in Desc(l, x, rank, bound) && n != x {
      var j := BelowWhich(l, x, 0, n, rank, bound);
      DescRank(l, l.children[x][j], n, rank, bound);
    }
  }

  /** The subtrees of the children rank strictly above the parent. */
  lemma BelowRank(l: Links, id: NodeId, n: NodeId, rank: map<NodeId, nat>, bound: nat)
    requires Ranked(l, rank, bound) && id in l.children
    ensures n in Below(l, id, 0, rank, bound) ==> n in l.children && rank[id] < rank[n]
  {
    if n in Below(l, id, 0, rank, bound) {
      var j := BelowWhich(l, id, 0, n, rank, bound);
      DescRank(l, l.children[id][j], n, rank, bound);
    }
  }

  /** A node under `x` other than `x` has its parent under `x` too. */
  lemma {:induction false} DescUp(l: Links, x: NodeId, n: NodeId, rank: map<NodeId, nat>, bound: nat)
    requires Ranked(l, rank, bound) && x in l.children && n in Desc(l, x, rank, bound) && n != x
    ensures n in l.parent && l.parent[n] in Desc(l, x, rank, bound)
    decreases bound - rank[x]
  {
    var j := BelowWhich(l, x, 0, n, rank, bound);
    var c := l.children[x][j];
    BelowHas(l, x, 0, j, rank, bound);
    if n != c {
      DescUp(l, c, n, rank, bound);
    }
  }

  /** The ancestor of `m` just below rank `r`: the climb stops at the
      first node whose parent ranks no higher than `r`. */
  ghost function UpTo(l: Links, m: NodeId, r: nat, rank: map<NodeId, nat>, bound: nat): NodeId
    requires Ranked(l, rank, bound) && m in l.children
    decreases rank[m]
  {
    if m in l.parent && rank[l.parent[m]] > r then UpTo(l, l.parent[m], r, rank, bound) else m
  }

  /** Climbing from anywhere under a child `a` of `p` to just below `p`'s
      rank ends at `a`, so the subtrees of two children are disjoint. */
  lemma {:induction false} UpToChild(l: Links, a: NodeId, m: NodeId, rank: map<NodeId, nat>, bound: nat)
    requires Ranked(l, rank, bound) && a in l.parent && m in Desc(l, a, rank, bound)
    ensures m in l.children && UpTo(l, m, rank[l.parent[a]], rank, bound) == a
    decreases if m in rank then rank[m] else 0
  {
    DescRank(l, a, m, rank, bound);
    if m != a {
      DescUp(l, a, m, rank, bound);
      DescRank(l, a, l.parent[m], rank, bound);
      UpToChild(l, a, l.parent[m], rank, bound);
    }
  }

  lemma SiblingsApart(l: Links, id: NodeId, i: nat, j: nat, m: NodeId, rank: map<NodeId, nat>, bound: nat)
    requires Ranked(l, rank, bound) && id in l.children && i < |l.children[id]| && j < |l.children[id]| && i != j
    requires m in Desc(l, l.children[id][i], rank, bound)
    ensures m !in Desc(l, l.children[id][j], rank, bound)
  {
    UpToChild(l, l.children[id][i], m, rank, bound);
    if m in Desc(l, l.children[id][j], rank, bound) {
      UpToChild(l, l.children[id][j], m, rank, bound);
    }
  }

  // ---------------------------------------------------------------------
  // What recalculate touches

  /** `recalculate` on `id` changes nothing outside the subtree of `id`. */
  lemma {:induction false} RecalcFrame(l: Links, tfs: Tfs, id: NodeId, rank: map<NodeId, nat>, bound: nat, corrected: bool)
    requires Ranked(l, rank, bound) && tfs.Keys == l.children.Keys && id in tfs
    requires tfs[id].dirty ==> id in l.parent
    ensures var r := Recalc(l, tfs, id, rank, bound, corrected);
            forall n :: n in tfs && n !in Desc(l, id, rank, bound) ==> r[n] == tfs[n]
    decreases bound - rank[id], 1
  {
    var tfs1: Tfs := tfs[id := Local(l, tfs, id, rank, bound)];
    var visit := if corrected then tfs[id].dirty || tfs[id].subtreeDirty else tfs[id].subtreeDirty;
    if visit {
      ChildrenFrame(l, tfs1, id, 0, tfs[id].dirty, rank, bound, corrected);
    }
  }

  lemma {:induction false} ChildrenFrame(l: Links, tfs: Tfs, id: NodeId, k: nat, dirty: bool,
                                         rank: map<NodeId, nat>, bound: nat, corrected: bool)
    requires Ranked(l, rank, bound) && tfs.Keys == l.children.Keys && id in tfs && k <= |l.children[id]|
    ensures var r := Children(l, tfs, id, k, dirty, rank, bound, corrected);
            forall n :: n in tfs && n !in Below(l, id, k, rank, bound) ==> r[n] == tfs[n]
    decreases bound - rank[id], 0, |l.children[id]| - k
  {
    if k < |l.children[id]| {
      var c := l.children[id][k];
      var tfs1: Tfs := tfs[c := tfs[c].(dirty := tfs[c].dirty || dirty)];
      RecalcFrame(l, tfs1, c, rank, bound, corrected);
      ChildrenFrame(l, Recalc(l, tfs1, c, rank, bound, corrected), id, k + 1, dirty, rank, bound, corrected);
    }
  }

  /** Every transform `recalculate` changes ends with both flags clear:
      a transform still flagged afterwards was not touched. */
  lemma {:induction false} RecalcCleans(l: Links, tfs: Tfs, id: NodeId, rank: map<NodeId, nat>, bound: nat, corrected: bool)
    requires Ranked(l, rank, bound) && tfs.Keys == l.children.Keys && id in tfs
    requires tfs[id].dirty ==> id in l.parent
    ensures var r := Recalc(l, tfs, id, rank, bound, corrected);
            forall n :: n in tfs && (r[n].dirty || r[n].subtreeDirty) ==> r[n] == tfs[n]
    decreases bound - rank[id], 1
  {
    var tfs1: Tfs := tfs[id := Local(l, tfs, id, rank, bound)];
    var visit := if corrected then tfs[id].dirty || tfs[id].subtreeDirty else tfs[id].subtreeDirty;
    if visit {
      ChildrenCleans(l, tfs1, id, 0, tfs[id].dirty, rank, bound, corrected);
    }
  }

  lemma {:induction false} ChildrenCleans(l: Links, tfs: Tfs, id: NodeId, k: nat, dirty: bool,
                                          rank: map<NodeId, nat>, bound: nat, corrected: bool)
    requires Ranked(l, rank, bound) && tfs.Keys == l.children.Keys && id in tfs && k <= |l.children[id]|
    ensures var r := Children(l, tfs, id, k, dirty, rank, bound, corrected);
            forall n :: n in tfs && (r[n].dirty || r[n].subtreeDirty) ==> r[n] == tfs[n]
    decreases bound - rank[id], 0, |l.children[id]| - k
  {
    if k < |l.children[id]| {
      var c := l.children[id][k];
      var tfs1: Tfs := tfs[c := tfs[c].(dirty := tfs[c].dirty || dirty)];
      RecalcCleans(l, tfs1, c, rank, bound, corrected);
      ChildrenCleans(l, Recalc(l, tfs1, c, rank, bound, corrected), id, k + 1, dirty, rank, bound, corrected);
    }
  }

  /** What `recalculate` does to the node itself: both flags cleared, the
      local fields kept, and, when it was dirty, the absolute position and
      scale taken from the parent's (translation adds, scale multiplies
      per axis); a transform with neither flag is left as it is, and as
      written a node without `subtreeDirty` changes no other node. */
  lemma RecalcNode(l: Links, tfs: Tfs, id: NodeId, rank: map<NodeId, nat>, bound: nat, corrected: bool)
    requires Ranked(l, rank, bound) && tfs.Keys == l.children.Keys && id in tfs
    requires tfs[id].dirty ==> id in l.parent
    ensures var r := Recalc(l, tfs, id, rank, bound, corrected);
            && !r[id].dirty && !r[id].subtreeDirty
            && r[id].position == tfs[id].position && r[id].orientation == tfs[id].orientation
            && r[id].scale == tfs[id].scale
            && (tfs[id].dirty ==>
                  && r[id].absPosition == Add(tfs[l.parent[id]].absPosition, tfs[id].position)
                  && r[id].absScale == Mul(tfs[l.parent[id]].absScale, tfs[id].scale))
            && (!tfs[id].dirty ==> r[id].absPosition == tfs[id].absPosition && r[id].absScale == tfs[id].absScale)
            && (!tfs[id].dirty && !tfs[id].subtreeDirty ==> r == tfs)
            && (!corrected && !tfs[id].subtreeDirty ==> forall n :: n in tfs && n != id ==> r[n] == tfs[n])
  {
    var tfs1: Tfs := tfs[id := Local(l, tfs, id, rank, bound)];
    var visit := if corrected then tfs[id].dirty || tfs[id].subtreeDirty else tfs[id].subtreeDirty;
    var tfs2 := Visit(l, tfs1, id, visit, tfs[id].dirty, rank, bound, corrected);
    if visit {
      ChildrenFrame(l, tfs1, id, 0, tfs[id].dirty, rank, bound, corrected);
      BelowRank(l, id, id, rank, bound);
      if tfs[id].dirty {
        BelowRank(l, id, l.parent[id], rank, bound);
      }
    }
    if !tfs[id].dirty && !tfs[id].subtreeDirty {
      assert tfs2 == tfs1 == tfs;
    }
  }

  // ---------------------------------------------------------------------
  // What recalculate is for

  /** The absolute position and scale of `n` agree with its parent's. */
  ghost predicate Consistent(l: Links, tfs: Tfs, n: NodeId)
    requires n in l.parent && n in tfs && l.parent[n] in tfs
  {
    && tfs[n].absPosition == Add(tfs[l.parent[n]].absPosition, tfs[n].position)
    && tfs[n].absScale == Mul(tfs[l.parent[n]].absScale, tfs[n].scale)
  }

  /** The subtree of `id` is up to date: no flag is set in it, and each of
      its transforms (the top one too, when it has a parent) agrees with
      its parent. */
  ghost predicate Settled(l: Links, tfs: Tfs, id: NodeId, rank: map<NodeId, nat>, bound: nat)
    requires Ranked(l, rank, bound) && tfs.Keys == l.children.Keys && id in tfs
    decreases bound - rank[id]
  {
    && !tfs[id].dirty && !tfs[id].subtreeDirty
    && (id in l.parent ==> Consistent(l, tfs, id))
    && forall k :: 0 <= k < |l.children[id]| ==> Settled(l, tfs, l.children[id][k], rank, bound)
  }

  /** A transform that is not dirty agrees with its parent. */
  ghost predicate ReadyHere(l: Links, tfs: Tfs, id: NodeId, rank: map<NodeId, nat>, bound: nat)
    requires Ranked(l, rank, bound) && tfs.Keys == l.children.Keys && id in tfs
  {
    id in l.parent && !tfs[id].dirty ==> Consistent(l, tfs, id)
  }

  /** Below `id`: the children of a transform without `subtreeDirty` have
      no flag, and every child is ready in turn. */
  ghost predicate ReadyBelow(l: Links, tfs: Tfs, id: NodeId, rank: map<NodeId, nat>, bound: nat)
    requires Ranked(l, rank, bound) && tfs.Keys == l.children.Keys && id in tfs
    decreases bound - rank[id]
  {
    && (!tfs[id].subtreeDirty ==>
          forall k :: 0 <= k < |l.children[id]| ==>
            !tfs[l.children[id][k]].dirty && !tfs[l.children[id][k]].subtreeDirty)
    && forall k :: 0 <= k < |l.children[id]| ==>
         ReadyHere(l, tfs, l.children[id][k], rank, bound) && ReadyBelow(l, tfs, l.children[id][k], rank, bound)
  }

  /** `Settled` reads only the subtree and the parent's absolute fields. */
  lemma {:induction false} SettledFrame(l: Links, tfs: Tfs, tfs': Tfs, c: NodeId, rank: map<NodeId, nat>, bound: nat)
    requires Ranked(l, rank, bound) && tfs.Keys == l.children.Keys && tfs'.Keys == l.children.Keys && c in tfs
    requires forall n :: n in tfs && n in Desc(l, c, rank, bound) ==> tfs'[n] == tfs[n]
    requires c in l.parent ==> && tfs'[l.parent[c]].absPosition == tfs[l.parent[c]].absPosition
                               && tfs'[l.parent[c]].absScale == tfs[l.parent[c]].absScale
    requires Settled(l, tfs, c, rank, bound)
    ensures Settled(l, tfs', c, rank, bound)
    decreases bound - rank[c]
  {
    forall k | 0 <= k < |l.children[c]|
      ensures Settled(l, tfs', l.children[c][k], rank, bound)
    {
      BelowHas(l, c, 0, k, rank, bound);
      SettledFrame(l, tfs, tfs', l.children[c][k], rank, bound);
    }
  }

  /** `ReadyBelow` reads only the subtree, and not the top one's `dirty`. */
  lemma {:induction false} ReadyBelowFrame(l: Links, tfs: Tfs, tfs': Tfs, c: NodeId, rank: map<NodeId, nat>, bound: nat)
    requires Ranked(l, rank, bound) && tfs.Keys == l.children.Keys && tfs'.Keys == l.children.Keys && c in tfs
    requires tfs'[c] == tfs[c].(dirty := tfs'[c].dirty)
    requires forall n :: n in tfs && n in Desc(l, c, rank, bound) && n != c ==> tfs'[n] == tfs[n]
    requires ReadyBelow(l, tfs, c, rank, bound)
    ensures ReadyBelow(l, tfs', c, rank, bound)
    decreases bound - rank[c]
  {
    forall k | 0 <= k < |l.children[c]|
      ensures tfs'[l.children[c][k]] == tfs[l.children[c][k]]
      ensures ReadyHere(l, tfs', l.children[c][k], rank, bound) && ReadyBelow(l, tfs', l.children[c][k], rank, bound)
    {
      var cc := l.children[c][k];
      BelowHas(l, c, 0, k, rank, bound);
      forall n | n in tfs && n in Desc(l, cc, rank, bound)
        ensures tfs'[n] == tfs[n]
      {
        DescRank(l, cc, n, rank, bound);
      }
      assert cc in Desc(l, cc, rank, bound);
      ReadyBelowFrame(l, tfs, tfs', cc, rank, bound);
    }
  }


  /** A ready subtree whose top has no flag is already settled. */
  lemma {:induction false} ReadySettles(l: Links, tfs: Tfs, id: NodeId, rank: map<NodeId, nat>, bound: nat)
    requires Ranked(l, rank, bound) && tfs.Keys == l.children.Keys && id in tfs
    requires ReadyHere(l, tfs, id, rank, bound) && ReadyBelow(l, tfs, id, rank, bound)
    requires !tfs[id].dirty && !tfs[id].subtreeDirty
    ensures Settled(l, tfs, id, rank, bound)
    decreases bound - rank[id]
  {
    forall k | 0 <= k < |l.children[id]|
      ensures Settled(l, tfs, l.children[id][k], rank, bound)
    {
      ReadySettles(l, tfs, l.children[id][k], rank, bound);
    }
  }

  /** The corrected `recalculate` settles a ready subtree. */
  lemma {:induction false} RecalcSettles(l: Links, tfs: Tfs, id: NodeId, rank: map<NodeId, nat>, bound: nat)
    requires Ranked(l, rank, bound) && tfs.Keys == l.children.Keys && id in tfs
    requires tfs[id].dirty ==> id in l.parent
    requires ReadyHere(l, tfs, id, rank, bound) && ReadyBelow(l, tfs, id, rank, bound)
    ensures Settled(l, Recalc(l, tfs, id, rank, bound, true), id, rank, bound)
    decreases bound - rank[id], 1
  {
    var t := tfs[id];
    var r := Recalc(l, tfs, id, rank, bound, true);
    RecalcNode(l, tfs, id, rank, bound, true);
    if id in l.parent {
      RecalcFrame(l, tfs, id, rank, bound, true);
      DescRank(l, id, l.parent[id], rank, bound);
      assert r[l.parent[id]] == tfs[l.parent[id]];
    }
    if t.dirty || t.subtreeDirty {
      var tfs1: Tfs := tfs[id := Local(l, tfs, id, rank, bound)];
      LocalKeepsChildrenReady(l, tfs, id, rank, bound);
      ChildrenSettle(l, tfs1, id, 0, t.dirty, rank, bound);
      ClearKeepsChildrenSettled(l, Children(l, tfs1, id, 0, t.dirty, rank, bound, true), id, rank, bound);
    } else {
      ReadySettles(l, tfs, id, rank, bound);
    }
  }

  /** The node's own step leaves its children ready (a dirty node's
      children will all take `dirty`, so they need not agree yet). */
  lemma LocalKeepsChildrenReady(l: Links, tfs: Tfs, id: NodeId, rank: map<NodeId, nat>, bound: nat)
    requires Ranked(l, rank, bound) && tfs.Keys == l.children.Keys && id in tfs
    requires tfs[id].dirty ==> id in l.parent
    requires ReadyBelow(l, tfs, id, rank, bound)
    ensures var tfs1: Tfs := tfs[id := Local(l, tfs, id, rank, bound)];
            forall j :: 0 <= j < |l.children[id]| ==>
              (tfs[id].dirty || ReadyHere(l, tfs1, l.children[id][j], rank, bound))
              && ReadyBelow(l, tfs1, l.children[id][j], rank, bound)
  {
    var tfs1: Tfs := tfs[id := Local(l, tfs, id, rank, bound)];
    forall j | 0 <= j < |l.children[id]|
      ensures (tfs[id].dirty || ReadyHere(l, tfs1, l.children[id][j], rank, bound))
              && ReadyBelow(l, tfs1, l.children[id][j], rank, bound)
    {
      var c := l.children[id][j];
      forall n | n in tfs && n in Desc(l, c, rank, bound)
        ensures tfs1[n] == tfs[n]
      {
        DescRank(l, c, n, rank, bound);
      }
      ReadyBelowFrame(l, tfs, tfs1, c, rank, bound);
    }
  }

  /** Clearing the node's own flags keeps its children settled. */
  lemma ClearKeepsChildrenSettled(l: Links, tfs: Tfs, id: NodeId, rank: map<NodeId, nat>, bound: nat)
    requires Ranked(l, rank, bound) && tfs.Keys == l.children.Keys && id in tfs
    requires forall j :: 0 <= j < |l.children[id]| ==> Settled(l, tfs, l.children[id][j], rank, bound)
    ensures var r: Tfs := tfs[id := tfs[id].(dirty := false, subtreeDirty := false)];
            forall j :: 0 <= j < |l.children[id]| ==> Settled(l, r, l.children[id][j], rank, bound)
  {
    var r: Tfs := tfs[id := tfs[id].(dirty := false, subtreeDirty := false)];
    forall j | 0 <= j < |l.children[id]|
      ensures Settled(l, r, l.children[id][j], rank, bound)
    {
      var c := l.children[id][j];
      forall n | n in tfs && n in Desc(l, c, rank, bound)
        ensures r[n] == tfs[n]
      {
        DescRank(l, c, n, rank, bound);
      }
      SettledFrame(l, tfs, r, c, rank, bound);
    }
  }

  /** The loop of the corrected `recalculate`: the children before `k`
      are settled, those from `k` on are ready (all of them take `dirty`
      from a dirty parent), and at the end every child is settled. */
  lemma {:induction false} ChildrenSettle(l: Links, tfs: Tfs, id: NodeId, k: nat, dirty: bool,
                                          rank: map<NodeId, nat>, bound: nat)
    requires Ranked(l, rank, bound) && tfs.Keys == l.children.Keys && id in tfs && k <= |l.children[id]|
    requires forall j :: 0 <= j < k ==> Settled(l, tfs, l.children[id][j], rank, bound)
    requires forall j :: k <= j < |l.children[id]| ==>
               (dirty || ReadyHere(l, tfs, l.children[id][j], rank, bound))
               && ReadyBelow(l, tfs, l.children[id][j], rank, bound)
    ensures forall j :: 0 <= j < |l.children[id]| ==>
              Settled(l, Children(l, tfs, id, k, dirty, rank, bound, true), l.children[id][j], rank, bound)
    decreases bound - rank[id], 0, |l.children[id]| - k
  {
    if k < |l.children[id]| {
      var c := l.children[id][k];
      var tfs1: Tfs := tfs[c := tfs[c].(dirty := tfs[c].dirty || dirty)];
      ChildReady(l, tfs, id, k, dirty, rank, bound);
      RecalcSettles(l, tfs1, c, rank, bound);
      var r1 := Recalc(l, tfs1, c, rank, bound, true);
      RecalcFrame(l, tfs1, c, rank, bound, true);
      assert c in Desc(l, c, rank, bound);
      OthersKept(l, tfs, r1, id, k, rank, bound);
      ChildrenSettle(l, r1, id, k + 1, dirty, rank, bound);
    }
  }

  /** The `k`-th child, having taken the parent's `dirty`, is ready. */
  lemma ChildReady(l: Links, tfs: Tfs, id: NodeId, k: nat, dirty: bool, rank: map<NodeId, nat>, bound: nat)
    requires Ranked(l, rank, bound) && tfs.Keys == l.children.Keys && id in tfs && k < |l.children[id]|
    requires (dirty || ReadyHere(l, tfs, l.children[id][k], rank, bound))
             && ReadyBelow(l, tfs, l.children[id][k], rank, bound)
    ensures var c := l.children[id][k];
            var tfs1: Tfs := tfs[c := tfs[c].(dirty := tfs[c].dirty || dirty)];
            ReadyHere(l, tfs1, c, rank, bound) && ReadyBelow(l, tfs1, c, rank, bound)
  {
    var c := l.children[id][k];
    var tfs1: Tfs := tfs[c := tfs[c].(dirty := tfs[c].dirty || dirty)];
    ReadyBelowFrame(l, tfs, tfs1, c, rank, bound);
  }

  /** Recalculating the `k`-th child leaves the other children's subtrees
      as they were. */
  lemma OthersKept(l: Links, tfs: Tfs, r1: Tfs, id: NodeId, k: nat, rank: map<NodeId, nat>, bound: nat)
    requires Ranked(l, rank, bound) && tfs.Keys == l.children.Keys && r1.Keys == tfs.Keys
    requires id in tfs && k < |l.children[id]|
    requires forall n :: n in tfs && n !in Desc(l, l.children[id][k], rank, bound) ==> r1[n] == tfs[n]
    ensures forall j :: 0 <= j < |l.children[id]| && j != k ==>
              && (Settled(l, tfs, l.children[id][j], rank, bound) ==> Settled(l, r1, l.children[id][j], rank, bound))
              && (ReadyHere(l, tfs, l.children[id][j], rank, bound) ==> ReadyHere(l, r1, l.children[id][j], rank, bound))
              && (ReadyBelow(l, tfs, l.children[id][j], rank, bound) ==> ReadyBelow(l, r1, l.children[id][j], rank, bound))
  {
    var c := l.children[id][k];
    DescRank(l, c, id, rank, bound);
    forall j | 0 <= j < |l.children[id]| && j != k
      ensures && (Settled(l, tfs, l.children[id][j], rank, bound) ==> Settled(l, r1, l.children[id][j], rank, bound))
              && (ReadyHere(l, tfs, l.children[id][j], rank, bound) ==> ReadyHere(l, r1, l.children[id][j], rank, bound))
              && (ReadyBelow(l, tfs, l.children[id][j], rank, bound) ==> ReadyBelow(l, r1, l.children[id][j], rank, bound))
    {
      var cj := l.children[id][j];
      forall n | n in tfs && n in Desc(l, cj, rank, bound)
        ensures r1[n] == tfs[n]
      {
        SiblingsApart(l, id, j, k, n, rank, bound);
      }
      assert cj in Desc(l, cj, rank, bound);
      if Settled(l, tfs, cj, rank, bound) {
        SettledFrame(l, tfs, r1, cj, rank, bound);
      }
      if ReadyBelow(l, tfs, cj, rank, bound) {
        ReadyBelowFrame(l, tfs, r1, cj, rank, bound);
      }
    }
  }

  /** The state `markAsDirty` keeps between recalculations: a transform
      that is not dirty agrees with its parent, and a flagged transform's
      parent has `subtreeDirty`. */
  ghost predicate Prepared(l: Links, tfs: Tfs)
    requires Framed(l, tfs)
  {
    forall n :: n in l.parent ==>
      && (!tfs[n].dirty ==> Consistent(l, tfs, n))
      && (tfs[n].dirty || tfs[n].subtreeDirty ==> tfs[l.parent[n]].subtreeDirty)
  }

  lemma {:induction false} PreparedReady(l: Links, tfs: Tfs, id: NodeId, rank: map<NodeId, nat>, bound: nat)
    requires Ranked(l, rank, bound) && Framed(l, tfs) && id in tfs && Prepared(l, tfs)
    ensures ReadyHere(l, tfs, id, rank, bound) && ReadyBelow(l, tfs, id, rank, bound)
    decreases bound - rank[id]
  {
    forall k | 0 <= k < |l.children[id]|
      ensures ReadyHere(l, tfs, l.children[id][k], rank, bound) && ReadyBelow(l, tfs, l.children[id][k], rank, bound)
    {
      PreparedReady(l, tfs, l.children[id][k], rank, bound);
    }
  }

  /** An edit of the local fields of `id` after `markAsDirty` keeps the
      state prepared. */
  lemma EditKeepsPrepared(l: Links, tfs: Tfs, id: NodeId, r: Tfs)
    requires Framed(l, tfs) && id in tfs && Prepared(l, tfs)
    requires r.Keys == tfs.Keys
    requires forall n :: n in tfs && n != id ==> r[n] == DirtyMarked(l, tfs, id)[n]
    requires r[id].dirty && r[id].subtreeDirty
    requires r[id].absPosition == tfs[id].absPosition && r[id].absScale == tfs[id].absScale
    ensures Framed(l, r) && Prepared(l, r)
  {
    var m := DirtyMarked(l, tfs, id);
    MarkKeepsClosed(l, tfs, id);
    forall n | n in l.parent
      ensures && (!r[n].dirty ==> Consistent(l, r, n))
              && (r[n].dirty || r[n].subtreeDirty ==> r[l.parent[n]].subtreeDirty)
    {
      if n != id {
        assert r[n] == tfs[n].(subtreeDirty := r[n].subtreeDirty);
      }
    }
  }

  /** Every setter keeps the state prepared. */
  lemma SettersKeepPrepared(l: Links, tfs: Tfs, id: NodeId, p: Vec3, q: Quat, s: Vec3)
    requires Framed(l, tfs) && id in tfs && Prepared(l, tfs)
    ensures Prepared(l, Moved(l, tfs, id, p))
    ensures Prepared(l, Turned(l, tfs, id, q))
    ensures Prepared(l, Scaled(l, tfs, id, s))
  {
    EditKeepsPrepared(l, tfs, id, Moved(l, tfs, id, p));
    EditKeepsPrepared(l, tfs, id, Turned(l, tfs, id, q));
    EditKeepsPrepared(l, tfs, id, Scaled(l, tfs, id, s));
  }

  /** From a prepared state, the corrected `recalculate` on the root (which
      cannot be dirty: it has no parent to read) settles the whole tree. */
  lemma CorrectedRecalcSettles(l: Links, tfs: Tfs, root: NodeId, rank: map<NodeId, nat>, bound: nat)
    requires Ranked(l, rank, bound) && Framed(l, tfs) && root in tfs && Prepared(l, tfs)
    requires root !in l.parent && !tfs[root].dirty
    ensures Settled(l, Recalc(l, tfs, root, rank, bound, true), root, rank, bound)
  {
    PreparedReady(l, tfs, root, rank, bound);
    RecalcSettles(l, tfs, root, rank, bound);
  }

  /** The loop over a single child is one recalculation of that child. */
  lemma OnlyChild(l: Links, tfs: Tfs, id: NodeId, dirty: bool, rank: map<NodeId, nat>, bound: nat, corrected: bool)
    requires Ranked(l, rank, bound) && tfs.Keys == l.children.Keys && id in tfs && |l.children[id]| == 1
    ensures var c := l.children[id][0];
            Children(l, tfs, id, 0, dirty, rank, bound, corrected)
              == Recalc(l, tfs[c := tfs[c].(dirty := tfs[c].dirty || dirty)], c, rank, bound, corrected)
  {
  }

  /** As written, a clean transform with `subtreeDirty` and one dirty child
      passes the recalculation on to that child. */
  lemma ThroughClean(l: Links, tfs: Tfs, id: NodeId, rank: map<NodeId, nat>, bound: nat)
    requires Ranked(l, rank, bound) && tfs.Keys == l.children.Keys && id in tfs && |l.children[id]| == 1
    requires !tfs[id].dirty && tfs[id].subtreeDirty && tfs[l.children[id][0]].dirty
    ensures var rc := Recalc(l, tfs, l.children[id][0], rank, bound, false);
            Recalc(l, tfs, id, rank, bound, false) == rc[id := rc[id].(dirty := false, subtreeDirty := false)]
  {
    var c := l.children[id][0];
    assert tfs[id := Local(l, tfs, id, rank, bound)] == tfs;
    assert tfs[c := tfs[c].(dirty := tfs[c].dirty || false)] == tfs;
    OnlyChild(l, tfs, id, false, rank, bound, false);
  }

  /** As written, a dirty transform with `subtreeDirty` and one child is
      recomputed and then recalculates that child, which takes `dirty`. */
  lemma ThroughDirty(l: Links, tfs: Tfs, id: NodeId, rank: map<NodeId, nat>, bound: nat)
    requires Ranked(l, rank, bound) && tfs.Keys == l.children.Keys && id in tfs && |l.children[id]| == 1
    requires tfs[id].dirty && tfs[id].subtreeDirty && id in l.parent
    ensures var c := l.children[id][0];
            var t1: Tfs := tfs[id := Recomputed(tfs[id], tfs[l.parent[id]])];
            var rc := Recalc(l, t1[c := t1[c].(dirty := true)], c, rank, bound, false);
            Recalc(l, tfs, id, rank, bound, false) == rc[id := rc[id].(dirty := false, subtreeDirty := false)]
  {
    var c := l.children[id][0];
    var t1: Tfs := tfs[id := Recomputed(tfs[id], tfs[l.parent[id]])];
    assert t1[c := t1[c].(dirty := t1[c].dirty || true)] == t1[c := t1[c].(dirty := true)];
    OnlyChild(l, t1, id, true, rank, bound, false);
  }

  /** Two positions moved by the same offset stay apart. */
  lemma AddCancels(x: Vec3, y: Vec3, p: Vec3)
    ensures Add(x, p) == Add(y, p) ==> x == y
  {
    if Add(x, p) == Add(y, p) {
      assert x.x == Add(x, p).x - p.x == Add(y, p).x - p.x == y.x;
      assert x.y == Add(x, p).y - p.y == Add(y, p).y - p.y == y.y;
      assert x.z == Add(x, p).z - p.z == Add(y, p).z - p.z == y.z;
    }
  }

  /** As written, in a chain `a - b - c - d` where `b` is dirty with
      `subtreeDirty` and `c` has no `subtreeDirty`, recalculating from `a`
      recomputes `c` and leaves `d` as it was. */
  lemma {:induction false} ChainRecalc(l: Links, tfs: Tfs, a: NodeId, b: NodeId, c: NodeId, d: NodeId,
                                       rank: map<NodeId, nat>, bound: nat)
    requires Ranked(l, rank, bound) && tfs.Keys == l.children.Keys && a in tfs
    requires l.children[a] == [b] && b in l.children && l.children[b] == [c] && c in l.children && l.children[c] == [d]
    requires !tfs[a].dirty && tfs[a].subtreeDirty && tfs[b].dirty && tfs[b].subtreeDirty && !tfs[c].subtreeDirty
    ensures d in tfs && c in tfs
    ensures var r := Recalc(l, tfs, a, rank, bound, false);
            && r[d] == tfs[d]
            && r[c].absPosition == Add(Add(tfs[a].absPosition, tfs[b].position), tfs[c].position)
  {
    assert l.children[c][0] == d && l.children[b][0] == c && l.children[a][0] == b;
    var r := Recalc(l, tfs, a, rank, bound, false);
    ThroughClean(l, tfs, a, rank, bound);
    var rb := Recalc(l, tfs, b, rank, bound, false);
    ThroughDirty(l, tfs, b, rank, bound);
    var tb: Tfs := tfs[b := Recomputed(tfs[b], tfs[l.parent[b]])];
    var tc: Tfs := tb[c := tb[c].(dirty := true)];
    RecalcNode(l, tc, c, rank, bound, false);
    var rc := Recalc(l, tc, c, rank, bound, false);
    assert a != c && b != c && a != d && b != d && c != d;
    assert r[d] == rb[d] == rc[d] == tc[d] == tfs[d];
    assert r[c] == rb[c] == rc[c];
  }

  /** As written, in a chain `a - b - c - d` where `b` was moved (it is
      dirty and has `subtreeDirty`, as `markAsDirty` leaves it) and `c`
      has no `subtreeDirty`, recalculating from `a` recomputes `c` (it
      takes `dirty` from `b`) but never visits `d`: when `c`'s absolute
      position really changes, `d`, which agreed with `c` before, no
      longer does.  The state may be prepared, so this happens after a
      plain `setPosition` on `b`. */
  lemma StaleGrandchild(l: Links, tfs: Tfs, a: NodeId, b: NodeId, c: NodeId, d: NodeId,
                        rank: map<NodeId, nat>, bound: nat)
    requires Ranked(l, rank, bound) && tfs.Keys == l.children.Keys && a in tfs
    requires l.children[a] == [b] && b in l.children && l.children[b] == [c] && c in l.children && l.children[c] == [d]
    requires Prepared(l, tfs)
    requires !tfs[a].dirty && tfs[a].subtreeDirty && tfs[b].dirty && tfs[b].subtreeDirty && !tfs[c].subtreeDirty
    requires Add(Add(tfs[a].absPosition, tfs[b].position), tfs[c].position) != tfs[c].absPosition
    ensures d in l.parent && d in tfs && l.parent[d] in tfs
    ensures !Consistent(l, Recalc(l, tfs, a, rank, bound, false), d)
  {
    assert l.children[c][0] == d;
    ChainRecalc(l, tfs, a, b, c, d, rank, bound);
    var r := Recalc(l, tfs, a, rank, bound, false);
    AddCancels(r[c].absPosition, tfs[c].absPosition, tfs[d].position);
  }

  // ---------------------------------------------------------------------
  // The transforms of a scene

  class Transforms {
    var tfs: Tfs

    constructor ()
      ensures tfs == map[]
    {
      tfs := map[];
    }

    /** `Transform::create`: a node gets a transform with the defaults. */
    method Attach(id: NodeId)
      requires id !in tfs
      modifies `tfs
      ensures tfs == old(tfs)[id := Initial]
    {
      tfs := tfs[id := Initial];
    }

    method MarkAsDirty(l: Links, id: NodeId)
      requires Framed(l, tfs) && id in tfs
      modifies `tfs
      ensures tfs == DirtyMarked(l, old(tfs), id)
    {
      tfs := tfs[id := tfs[id].(dirty := true, subtreeDirty := true)];
      Climb(l, ParentOf(l, id));
    }

    /** The loop of `markAsDirty` over the ancestors. */
    method Climb(l: Links, start: Option<NodeId>)
      requires Framed(l, tfs) && (start.Some? ==> start.value in tfs)
      modifies `tfs
      ensures tfs == Mark(l, old(tfs), start)
    {
      var current := start;
      while current.Some?
        invariant tfs.Keys == old(tfs).Keys && (current.Some? ==> current.value in tfs)
        invariant Mark(l, tfs, current) == Mark(l, old(tfs), start)
        decreases |Clean(tfs)|
      {
        var c := current.value;
        if tfs[c].subtreeDirty {
          break;
        }
        CleanShrinks(tfs, c);
        tfs := tfs[c := tfs[c].(subtreeDirty := true)];
        current := ParentOf(l, c);
      }
    }

    method SetPosition(l: Links, id: NodeId, p: Vec3)
      requires Framed(l, tfs) && id in tfs
      modifies `tfs
      ensures tfs == Moved(l, old(tfs), id, p)
    {
      MarkAsDirty(l, id);
      tfs := tfs[id := tfs[id].(position := p)];
    }

    method SetOrientation(l: Links, id: NodeId, q: Quat)
      requires Framed(l, tfs) && id in tfs
      modifies `tfs
      ensures tfs == Turned(l, old(tfs), id, q)
    {
      MarkAsDirty(l, id);
      tfs := tfs[id := tfs[id].(orientation := q)];
    }

    method SetScale(l: Links, id: NodeId, s: Vec3)
      requires Framed(l, tfs) && id in tfs
      modifies `tfs
      ensures tfs == Scaled(l, old(tfs), id, s)
    {
      MarkAsDirty(l, id);
      tfs := tfs[id := tfs[id].(scale := s)];
    }

    /** `setScale(float)`: the same factor on every axis. */
    method SetUniformScale(l: Links, id: NodeId, s: real)
      requires Framed(l, tfs) && id in tfs
      modifies `tfs
      ensures tfs == Scaled(l, old(tfs), id, Vec3(s, s, s))
    {
      SetScale(l, id, Vec3(s, s, s));
    }

    /** `recalculate`, visiting the children of a node that is dirty itself
        as well as of one whose subtree is dirty (see `StaleGrandchild` for
        the version that visits only the latter). */
    method Recalculate(l: Links, id: NodeId, ghost rank: map<NodeId, nat>, ghost bound: nat)
      requires Ranked(l, rank, bound) && tfs.Keys == l.children.Keys && id in tfs
      requires tfs[id].dirty ==> id in l.parent
      modifies `tfs
      ensures tfs == Recalc(l, old(tfs), id, rank, bound, true)
      decreases bound - rank[id], 1
    {
      var t := tfs[id];
      if t.dirty {
        tfs := tfs[id := Recomputed(t, tfs[l.parent[id]])];
      } else {
        assert tfs == tfs[id := t];
      }
      if t.dirty || t.subtreeDirty {
        RecalculateChildren(l, id, t.dirty, rank, bound);
      }
      tfs := tfs[id := tfs[id].(dirty := false, subtreeDirty := false)];
    }

    /** The loop of `recalculate` over the children of `id`. */
    method RecalculateChildren(l: Links, id: NodeId, dirty: bool, ghost rank: map<NodeId, nat>, ghost bound: nat)
      requires Ranked(l, rank, bound) && tfs.Keys == l.children.Keys && id in tfs
      modifies `tfs
      ensures tfs == Children(l, old(tfs), id, 0, dirty, rank, bound, true)
      decreases bound - rank[id], 0
    {
      var children := l.children[id];
      for k := 0 to |children|
        invariant tfs.Keys == l.children.Keys
        invariant Children(l, tfs, id, k, dirty, rank, bound, true) == Children(l, old(tfs), id, 0, dirty, rank, bound, true)
      {
        var c := children[k];
        tfs := tfs[c := tfs[c].(dirty := tfs[c].dirty || dirty)];
        Recalculate(l, c, rank, bound);
      }
    }
  }
}

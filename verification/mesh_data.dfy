/** Mesh data built from an imported scene (entities/mesh_data.cpp).  The
    importer's scene is given as a tree of nodes whose meshes are already
    resolved through the scene's mesh table; GPU buffer creation is outside
    the model.  A MeshData tree is held in an arena: entry 0 is the root and
    a sub-mesh is named by its position in the arena. */
module MeshData {
  import opened Common

  /** An imported mesh: positions, the first texture-coordinate channel and
      the normals (each present or not), and its faces as index lists. */
  datatype AiMesh = AiMesh(
    positions: seq<Vec3>,
    texCoords: Option<seq<Vec3>>,
    normals: Option<seq<Vec3>>,
    faces: seq<seq<nat>>)

  /** What the importer guarantees: per-vertex attributes have one entry
      per vertex, and no face is shorter than the first one. */
  predicate WellFormedMesh(m: AiMesh)
  {
    && (m.texCoords.Some? ==> |m.texCoords.value| == |m.positions|)
    && (m.normals.Some? ==> |m.normals.value| == |m.positions|)
    && (|m.faces| > 0 ==> forall i :: 0 <= i < |m.faces| ==> |m.faces[i]| >= |m.faces[0]|)
  }

  type Mesh = m: AiMesh | WellFormedMesh(m) witness AiMesh([], None, None, [])

  datatype AiNode = AiNode(name: string, meshes: seq<Mesh>, children: seq<AiNode>)

  datatype MeshError = UnsupportedMesh

  /** One MeshData: name, interleaved vertex buffer, index buffer, and the
      arena positions of its sub-meshes. */
  datatype MeshEntry = MeshEntry(name: string, vertices: seq<real>, indices: seq<nat>, subMeshes: seq<nat>)

  const Blank := MeshEntry("", [], [], [])

  predicate HasPositions(m: AiMesh) { |m.positions| > 0 }
  predicate HasTextureCoords(m: AiMesh) { m.texCoords.Some? && |m.positions| > 0 }
  predicate HasNormals(m: AiMesh) { m.normals.Some? && |m.positions| > 0 }

  /** Floats per vertex: 3 for a position, 2 for texture coordinates, 3 for
      a normal. */
  function VertexSize(m: AiMesh): (r: nat)
    ensures r <= 8
    ensures r == 8 <==> HasPositions(m) && HasTextureCoords(m) && HasNormals(m)
    ensures r == 0 <==> !HasPositions(m)
  {
    (if HasPositions(m) then 3 else 0) + (if HasTextureCoords(m) then 2 else 0) + (if HasNormals(m) then 3 else 0)
  }

  /** The eight floats of vertex i: position, (u, v), normal. */
  function VertexRecord(m: Mesh, i: nat): (r: seq<real>)
    requires i < |m.positions| && m.texCoords.Some? && m.normals.Some?
    ensures |r| == 8
  {
    var p := m.positions[i];
    var t := m.texCoords.value[i];
    var n := m.normals.value[i];
    [p.x, p.y, p.z, t.x, t.y, n.x, n.y, n.z]
  }

  /** The records of the first `count` vertices, back to back. */
  function Interleaved(m: Mesh, count: nat): (r: seq<real>)
    requires count <= |m.positions| && m.texCoords.Some? && m.normals.Some?
    ensures |r| == 8 * count
  {
    if count == 0 then [] else Interleaved(m, count - 1) + VertexRecord(m, count - 1)
  }

  /** The first `n` indices of every face, face after face. */
  function FlatFaces(faces: seq<seq<nat>>, n: nat): (r: seq<nat>)
    requires forall i :: 0 <= i < |faces| ==> |faces[i]| >= n
  {
    if faces == [] then [] else FlatFaces(faces[..|faces| - 1], n) + faces[|faces| - 1][..n]
  }

  /** `fillMeshData` on an entry: nothing happens to a mesh without faces or
      vertices; a mesh without texture coordinates or normals is refused;
      otherwise the entry gets the interleaved vertices and the faces'
      indices, as many per face as the first face has. */
  function Fill(m: Mesh, e: MeshEntry): Result<MeshEntry, MeshError>
  {
    if |m.faces| == 0 || |m.positions| == 0 then Ok(e)
    else if !HasTextureCoords(m) || !HasNormals(m) then Err(UnsupportedMesh)
    else Ok(e.(vertices := Interleaved(m, |m.positions|), indices := FlatFaces(m.faces, |m.faces[0]|)))
  }

  lemma MulStep(i: nat, n: nat)
    ensures (i + 1) * n == i * n + n
  {
  }

  lemma MulMono(a: nat, b: nat, n: nat)
    requires a <= b
    ensures a * n <= b * n
  {
    assert b * n - a * n == (b - a) * n;
  }

  lemma OffsetBelow(i: nat, j: nat, count: nat, n: nat)
    requires i < count && j < n
    ensures i * n + j < count * n
  {
    MulStep(i, n);
    MulMono(i + 1, count, n);
  }

  /** The body of the vertex loop: vertex i's floats at `offset`. */
  method WriteVertex(vertices: array<real>, offset: nat, m: Mesh, i: nat, hasTextureCoords: bool, hasNormals: bool)
    requires i < |m.positions| && hasTextureCoords && hasNormals && m.texCoords.Some? && m.normals.Some?
    requires offset + 8 <= vertices.Length
    modifies vertices
    ensures vertices[..offset] == old(vertices[..offset])
    ensures vertices[offset..offset + 8] == VertexRecord(m, i)
  {
    vertices[offset + 0] := m.positions[i].x;
    vertices[offset + 1] := m.positions[i].y;
    vertices[offset + 2] := m.positions[i].z;
    if hasTextureCoords {
      vertices[offset + 3] := m.texCoords.value[i].x;
      vertices[offset + 4] := m.texCoords.value[i].y;
    }
    if hasNormals {
      vertices[offset + 5] := m.normals.value[i].x;
      vertices[offset + 6] := m.normals.value[i].y;
      vertices[offset + 7] := m.normals.value[i].z;
    }
  }

  /** The vertex loop: each vertex's eight floats at `i * vertexSize`. */
  method WriteVertices(m: Mesh, hasTextureCoords: bool, hasNormals: bool) returns (r: seq<real>)
    requires |m.positions| > 0 && hasTextureCoords == HasTextureCoords(m) && hasNormals == HasNormals(m)
    requires hasTextureCoords && hasNormals
    ensures r == Interleaved(m, |m.positions|)
  {
    var vertexSize := VertexSize(m);
    var numVertices := |m.positions|;
    var vertices := new real[vertexSize * numVertices];
    var i := 0;
    while i < numVertices
      invariant 0 <= i <= numVertices
      invariant vertices[..8 * i] == Interleaved(m, i)
    {
      var offset := i * vertexSize;
      ghost var before := vertices[..];
      WriteVertex(vertices, offset, m, i, hasTextureCoords, hasNormals);
      assert vertices[..offset] == before[..offset];
      assert vertices[..8 * (i + 1)] == vertices[..offset] + vertices[offset..offset + 8];
      i := i + 1;
    }
    r := vertices[..];
  }

  /** The body of the index loop: face i's first n indices at `i * n`. */
  method WriteFace(indices: array<nat>, base: nat, n: nat, face: seq<nat>)
    requires |face| >= n && base + n <= indices.Length
    modifies indices
    ensures indices[..base] == old(indices[..base])
    ensures indices[base..base + n] == face[..n]
  {
    var j := 0;
    while j < n
      invariant 0 <= j <= n
      invariant indices[..base] == old(indices[..base])
      invariant indices[base..base + j] == face[..j]
    {
      indices[base + j] := face[j];
      assert indices[base..base + j + 1] == indices[base..base + j] + [face[j]];
      assert face[..j + 1] == face[..j] + [face[j]];
      j := j + 1;
    }
  }

  lemma SliceJoin(s: seq<nat>, base: nat, n: nat)
    requires base + n <= |s|
    ensures s[..base + n] == s[..base] + s[base..base + n]
  {
  }

  /** The index loop over the faces. */
  method WriteIndices(faces: seq<seq<nat>>, n: nat) returns (r: seq<nat>)
    requires forall i :: 0 <= i < |faces| ==> |faces[i]| >= n
    ensures r == FlatFaces(faces, n)
  {
    var numFaces := |faces|;
    var indices := new nat[numFaces * n];
    var f := 0;
    var base := 0;
    while f < numFaces
      invariant 0 <= f <= numFaces
      invariant base == f * n && base <= numFaces * n
      invariant indices[..base] == FlatFaces(faces[..f], n)
    {
      MulStep(f, n);
      MulMono(f + 1, numFaces, n);
      WriteFace(indices, base, n, faces[f]);
      assert faces[..f + 1][..f] == faces[..f];
      SliceJoin(indices[..], base, n);
      f := f + 1;
      base := base + n;
    }
    assert faces[..numFaces] == faces;
    r := indices[..];
  }

  /** Fills the entry's buffers from the mesh. */
  method FillMeshData(m: Mesh, e: MeshEntry) returns (r: Result<MeshEntry, MeshError>)
    ensures r == Fill(m, e)
  {
    if |m.faces| == 0 || |m.positions| == 0 {
      return Ok(e);
    }
    var hasTextureCoords := HasTextureCoords(m);
    var hasNormals := HasNormals(m);
    if !hasTextureCoords || !hasNormals {
      return Err(UnsupportedMesh);
    }
    var vertices := WriteVertices(m, hasTextureCoords, hasNormals);
    var indices := WriteIndices(m.faces, |m.faces[0]|);
    r := Ok(e.(vertices := vertices, indices := indices));
  }
  // ---------------------------------------------------------------------
  // Layout of the filled buffers

  /** Vertex i's record sits at `8 * i`: position at +0..2, (u, v) at +3..4,
      normal at +5..7. */
  lemma {:induction false} InterleavedAt(m: Mesh, count: nat, i: nat, k: nat)
    requires count <= |m.positions| && m.texCoords.Some? && m.normals.Some?
    requires i < count && k < 8
    ensures Interleaved(m, count)[8 * i + k] == VertexRecord(m, i)[k]
  {
    if i < count - 1 {
      InterleavedAt(m, count - 1, i, k);
    }
  }

  /** `numFaces * n` indices in all. */
  lemma {:induction false} FlatFacesLength(faces: seq<seq<nat>>, n: nat)
    requires forall i :: 0 <= i < |faces| ==> |faces[i]| >= n
    ensures |FlatFaces(faces, n)| == |faces| * n
  {
    if faces != [] {
      FlatFacesLength(faces[..|faces| - 1], n);
      MulStep(|faces| - 1, n);
    }
  }

  /** Index j of face i sits at `i * n + j`. */
  lemma {:induction false} FlatFacesAt(faces: seq<seq<nat>>, n: nat, i: nat, j: nat)
    requires forall i :: 0 <= i < |faces| ==> |faces[i]| >= n
    requires i < |faces| && j < n
    ensures i * n + j < |FlatFaces(faces, n)|
    ensures FlatFaces(faces, n)[i * n + j] == faces[i][j]
  {
    var init := faces[..|faces| - 1];
    FlatFacesLength(init, n);
    FlatFacesLength(faces, n);
    OffsetBelow(i, j, |faces|, n);
    if i < |faces| - 1 {
      FlatFacesAt(init, n, i, j);
    } else {
      assert i * n == |FlatFaces(init, n)|;
    }
  }

  /** A filled mesh has `vertexSize * numVertices` floats and
      `numFaces * n` indices, n being the first face's size. */
  lemma FillSizes(m: Mesh, e: MeshEntry)
    requires |m.faces| > 0 && |m.positions| > 0 && Fill(m, e).Ok?
    ensures VertexSize(m) == 8
    ensures |Fill(m, e).value.vertices| == VertexSize(m) * |m.positions|
    ensures |Fill(m, e).value.indices| == |m.faces| * |m.faces[0]|
    ensures Fill(m, e).value.name == e.name && Fill(m, e).value.subMeshes == e.subMeshes
  {
    FlatFacesLength(m.faces, |m.faces[0]|);
  }

  /** Only a mesh without texture coordinates or normals, with faces and
      vertices, is refused; an empty one leaves the entry as it was. */
  lemma FillOutcome(m: Mesh, e: MeshEntry)
    ensures Fill(m, e).Err? <==> |m.faces| > 0 && |m.positions| > 0 && (m.texCoords.None? || m.normals.None?)
    ensures Fill(m, e).Ok? <==> Fillable(m)
    ensures |m.faces| == 0 || |m.positions| == 0 ==> Fill(m, e) == Ok(e)
  {
  }

  // ---------------------------------------------------------------------
  // parseScene

  /** The node the tree starts from: past every node that has no mesh and
      exactly one child. */
  function Start(node: AiNode): (r: AiNode)
    ensures |r.meshes| != 0 || |r.children| != 1
    decreases node
  {
    if |node.meshes| == 0 && |node.children| == 1 then Start(node.children[0]) else node
  }

  /** A MeshData tree as a value. */
  datatype MeshTree = MeshTree(name: string, vertices: seq<real>, indices: seq<nat>, subMeshes: seq<MeshTree>)

  /** The meshes `fillMeshData` accepts: empty ones, and those with texture
      coordinates and normals. */
  predicate Fillable(m: Mesh)
  {
    |m.faces| == 0 || |m.positions| == 0 || (m.texCoords.Some? && m.normals.Some?)
  }

  /** Every mesh in the subtree can be filled. */
  predicate NodeFillable(node: AiNode)
    decreases node
  {
    && (forall k :: 0 <= k < |node.meshes| ==> Fillable(node.meshes[k]))
    && (forall c :: 0 <= c < |node.children| ==> NodeFillable(node.children[c]))
  }

  /** The entry after filling, or the entry itself when filling fails. */
  function FillOr(m: Mesh, e: MeshEntry): MeshEntry
  {
    match Fill(m, e)
    case Ok(v) => v
    case Err(_) => e
  }

  /** A sub-mesh made for one of a node's several meshes: unnamed, filled,
      without sub-meshes. */
  function LeafTree(m: Mesh): MeshTree
  {
    var e := FillOr(m, Blank);
    MeshTree("", e.vertices, e.indices, [])
  }

  /** The node's own entry: named after it, and filled from its mesh when it
      has exactly one. */
  function OwnEntry(node: AiNode): MeshEntry
  {
    if |node.meshes| == 1 then FillOr(node.meshes[0], Blank.(name := node.name)) else Blank.(name := node.name)
  }

  function MeshLeaves(node: AiNode): (r: seq<MeshTree>)
    ensures |r| == if |node.meshes| == 1 then 0 else |node.meshes|
  {
    if |node.meshes| == 1 then [] else seq(|node.meshes|, k requires 0 <= k < |node.meshes| => LeafTree(node.meshes[k]))
  }

  /** The MeshData tree `parseScene` builds below a node: one sub-mesh per
      mesh when the node does not have exactly one, then one per child. */
  function Tree(node: AiNode): MeshTree
    decreases node
  {
    MeshTree(node.name, OwnEntry(node).vertices, OwnEntry(node).indices,
             MeshLeaves(node) + seq(|node.children|, c requires 0 <= c < |node.children| => Tree(node.children[c])))
  }

  // ---------------------------------------------------------------------
  // The arena and what it denotes

  /** Every sub-mesh of an entry lies further down the arena. */
  predicate Ordered(arena: seq<MeshEntry>)
  {
    forall id, k :: 0 <= id < |arena| && 0 <= k < |arena[id].subMeshes| ==> id < arena[id].subMeshes[k] < |arena|
  }

  /** The tree an arena entry stands for. */
  function Denote(arena: seq<MeshEntry>, id: nat): MeshTree
    requires Ordered(arena) && id < |arena|
    decreases |arena| - id
  {
    var e := arena[id];
    MeshTree(e.name, e.vertices, e.indices,
             seq(|e.subMeshes|, k requires 0 <= k < |e.subMeshes| => Denote(arena, e.subMeshes[k])))
  }

  /** Entry `id` is complete: its own data is that of the tree it should
      stand for, and its sub-mesh links point at the entries for that
      tree's sub-meshes, in order. */
  predicate Done(arena: seq<MeshEntry>, want: seq<MeshTree>, id: nat)
    requires |want| == |arena| && id < |arena|
  {
    var e := arena[id];
    && e.name == want[id].name && e.vertices == want[id].vertices && e.indices == want[id].indices
    && |e.subMeshes| == |want[id].subMeshes|
    && forall k :: 0 <= k < |e.subMeshes| ==>
         id < e.subMeshes[k] < |arena| && want[e.subMeshes[k]] == want[id].subMeshes[k]
  }

  /** Once every entry is complete, each one denotes the tree it should. */
  lemma {:induction false} DenoteComplete(arena: seq<MeshEntry>, want: seq<MeshTree>, id: nat)
    requires |want| == |arena| && id < |arena|
    requires forall i :: 0 <= i < |arena| ==> Done(arena, want, i)
    ensures Ordered(arena)
    ensures Denote(arena, id) == want[id]
    decreases |arena| - id
  {
    assert Ordered(arena) by {
      forall i, k | 0 <= i < |arena| && 0 <= k < |arena[i].subMeshes|
        ensures i < arena[i].subMeshes[k] < |arena|
      {
        assert Done(arena, want, i);
      }
    }
    var e := arena[id];
    assert Done(arena, want, id);
    forall k | 0 <= k < |e.subMeshes|
      ensures Denote(arena, e.subMeshes[k]) == want[id].subMeshes[k]
    {
      DenoteComplete(arena, want, e.subMeshes[k]);
    }
    assert Denote(arena, id).subMeshes == want[id].subMeshes;
  }

  // ---------------------------------------------------------------------
  // The steps of one breadth-first visit

  function Range(start: nat, n: nat): (r: seq<nat>)
    ensures |r| == n && forall k :: 0 <= k < n ==> r[k] == start + k
  {
    seq(n, k => start + k)
  }

  /** The arena after `n` new sub-mesh links from entry `id` to fresh
      entries at its end. */
  function Linked(arena: seq<MeshEntry>, id: nat, n: nat): seq<MeshEntry>
    requires id < |arena|
  {
    arena[id := arena[id].(subMeshes := arena[id].subMeshes + Range(|arena|, n))]
  }

  lemma LinkedNone(arena: seq<MeshEntry>, id: nat)
    requires id < |arena|
    ensures Linked(arena, id, 0) == arena
  {
    assert arena[id].subMeshes + Range(|arena|, 0) == arena[id].subMeshes;
  }

  /** Adding one more link to a linked arena that has grown by `tail`. */
  lemma LinkedStep(arena: seq<MeshEntry>, id: nat, i: nat, tail: seq<MeshEntry>, e: MeshEntry)
    requires id < |arena| && |tail| == i
    ensures var cur := Linked(arena, id, i) + tail + [e];
            cur[id := cur[id].(subMeshes := cur[id].subMeshes + [|arena| + i])] == Linked(arena, id, i + 1) + tail + [e]
  {
    assert Range(|arena|, i + 1) == Range(|arena|, i) + [|arena| + i];
    var subs := arena[id].subMeshes;
    assert subs + Range(|arena|, i) + [|arena| + i] == subs + Range(|arena|, i + 1);
  }

  function FilledLeaves(meshes: seq<Mesh>): (r: seq<MeshEntry>)
    ensures |r| == |meshes|
  {
    seq(|meshes|, k requires 0 <= k < |meshes| => FillOr(meshes[k], Blank))
  }

  /** One new, filled sub-mesh per mesh, linked from entry `id`; fails at the
      first mesh that cannot be filled. */
  method AddMeshSubs(arena: seq<MeshEntry>, id: nat, meshes: seq<Mesh>) returns (r: Result<seq<MeshEntry>, MeshError>)
    requires id < |arena|
    ensures r.Ok? <==> forall k :: 0 <= k < |meshes| ==> Fillable(meshes[k])
    ensures r.Ok? ==> r.value == Linked(arena, id, |meshes|) + FilledLeaves(meshes)
  {
    var cur := arena;
    var i := 0;
    LinkedNone(arena, id);
    while i < |meshes|
      invariant 0 <= i <= |meshes|
      invariant cur == Linked(arena, id, i) + FilledLeaves(meshes[..i])
      invariant forall k :: 0 <= k < i ==> Fillable(meshes[k])
    {
      var sub := |cur|;
      var subMeshData := Blank;
      cur := cur + [subMeshData];
      cur := cur[id := cur[id].(subMeshes := cur[id].subMeshes + [sub])];
      var f := FillMeshData(meshes[i], cur[sub]);
      FillOutcome(meshes[i], cur[sub]);
      if f.Err? {
        return Err(f.error);
      }
      cur := cur[sub := f.value];
      LinkedStep(arena, id, i, FilledLeaves(meshes[..i]), Blank);
      assert FilledLeaves(meshes[..i + 1]) == FilledLeaves(meshes[..i]) + [FillOr(meshes[i], Blank)];
      i := i + 1;
    }
    assert meshes[..i] == meshes;
    r := Ok(cur);
  }

  function Blanks(n: nat): (r: seq<MeshEntry>)
    ensures |r| == n && forall k :: 0 <= k < n ==> r[k] == Blank
  {
    seq(n, k => Blank)
  }

  /** The queue entries for a node's children, numbered from `start`. */
  function Pending(children: seq<AiNode>, start: nat): (r: seq<(AiNode, nat)>)
    ensures |r| == |children|
  {
    seq(|children|, c requires 0 <= c < |children| => (children[c], start + c))
  }

  /** One new, empty sub-mesh per child, linked from entry `id`; the children
      are queued with their new entries. */
  method AddChildren(arena: seq<MeshEntry>, id: nat, children: seq<AiNode>)
    returns (cur: seq<MeshEntry>, added: seq<(AiNode, nat)>)
    requires id < |arena|
    ensures cur == Linked(arena, id, |children|) + Blanks(|children|)
    ensures added == Pending(children, |arena|)
  {
    cur := arena;
    added := [];
    var i := 0;
    LinkedNone(arena, id);
    while i < |children|
      invariant 0 <= i <= |children|
      invariant cur == Linked(arena, id, i) + Blanks(i)
      invariant added == Pending(children[..i], |arena|)
    {
      var subMeshData := Blank;
      var sub := |cur|;
      cur := cur + [subMeshData];
      cur := cur[id := cur[id].(subMeshes := cur[id].subMeshes + [sub])];
      added := added + [(children[i], sub)];
      LinkedStep(arena, id, i, Blanks(i), Blank);
      assert Blanks(i + 1) == Blanks(i) + [Blank];
      assert Pending(children[..i + 1], |arena|) == Pending(children[..i], |arena|) + [(children[i], sub)];
      i := i + 1;
    }
    assert children[..i] == children;
  }

  // ---------------------------------------------------------------------
  // One visit of the breadth-first loop, as a function of the arena

  /** The arena after visiting `node` whose entry is `id`. */
  function Visit(arena: seq<MeshEntry>, node: AiNode, id: nat): seq<MeshEntry>
    requires id < |arena|
  {
    var a1 := arena[id := arena[id].(name := node.name)];
    var a2 := if |node.meshes| == 1 then a1[id := FillOr(node.meshes[0], a1[id])]
              else Linked(a1, id, |node.meshes|) + FilledLeaves(node.meshes);
    Linked(a2, id, |node.children|) + Blanks(|node.children|)
  }

  function ChildTrees(node: AiNode): (r: seq<MeshTree>)
    ensures |r| == |node.children|
    ensures forall c :: 0 <= c < |node.children| ==> r[c] == Tree(node.children[c])
  {
    seq(|node.children|, c requires 0 <= c < |node.children| => Tree(node.children[c]))
  }

  lemma TreeParts(node: AiNode)
    ensures Tree(node).name == node.name
    ensures Tree(node).vertices == OwnEntry(node).vertices && Tree(node).indices == OwnEntry(node).indices
    ensures Tree(node).subMeshes == MeshLeaves(node) + ChildTrees(node)
  {
  }

  /** What a visit does to the arena: the visited entry gets its own data
      and links to the new entries, which are the filled leaves followed by
      one blank entry per child; nothing else changes. */
  predicate Shaped(arena: seq<MeshEntry>, a: seq<MeshEntry>, node: AiNode, id: nat)
    requires id < |arena|
  {
    var leaves := |MeshLeaves(node)|;
    && |a| == |arena| + leaves + |node.children|
    && (forall i :: 0 <= i < |arena| && i != id ==> a[i] == arena[i])
    && a[id].name == node.name
    && a[id].vertices == OwnEntry(node).vertices && a[id].indices == OwnEntry(node).indices
    && a[id].subMeshes == Range(|arena|, leaves) + Range(|arena| + leaves, |node.children|)
    && (forall k :: 0 <= k < leaves ==> a[|arena| + k] == FillOr(node.meshes[k], Blank))
    && (forall i :: |arena| + leaves <= i < |a| ==> a[i] == Blank)
  }

  lemma VisitShape(arena: seq<MeshEntry>, node: AiNode, id: nat, a: seq<MeshEntry>)
    requires id < |arena| && arena[id] == Blank && a == Visit(arena, node, id)
    ensures Shaped(arena, a, node, id)
  {
    var a1 := arena[id := arena[id].(name := node.name)];
    assert a1[id] == Blank.(name := node.name);
    if |node.meshes| == 1 {
      assert Range(|arena|, 0) == [];
    }
  }

  function Ids(queue: seq<(AiNode, nat)>): (r: seq<nat>)
    ensures |r| == |queue| && forall k :: 0 <= k < |queue| ==> r[k] == queue[k].1
  {
    seq(|queue|, k requires 0 <= k < |queue| => queue[k].1)
  }

  function Flags(b: bool, n: nat): (r: seq<bool>)
    ensures |r| == n && forall k :: 0 <= k < n ==> r[k] == b
  {
    seq(n, k => b)
  }

  /** Entries marked done are complete. */
  predicate AllDone(arena: seq<MeshEntry>, want: seq<MeshTree>, done: seq<bool>)
    requires |want| == |arena| == |done|
  {
    forall i :: 0 <= i < |arena| && done[i] ==> Done(arena, want, i)
  }

  /** Entries not done are blank and queued. */
  predicate BlanksQueued(arena: seq<MeshEntry>, done: seq<bool>, queue: seq<(AiNode, nat)>)
    requires |done| == |arena|
  {
    forall i :: 0 <= i < |arena| && !done[i] ==> arena[i] == Blank && i in Ids(queue)
  }

  /** Queue entry k is not done and stands for its node's tree. */
  predicate QueueWant(want: seq<MeshTree>, done: seq<bool>, queue: seq<(AiNode, nat)>, k: nat)
    requires |done| == |want| && k < |queue|
  {
    queue[k].1 < |want| && !done[queue[k].1] && want[queue[k].1] == Tree(queue[k].0)
  }

  predicate QueueWants(want: seq<MeshTree>, done: seq<bool>, queue: seq<(AiNode, nat)>)
    requires |done| == |want|
  {
    forall k {:trigger QueueWant(want, done, queue, k)} :: 0 <= k < |queue| ==> QueueWant(want, done, queue, k)
  }

  predicate Increasing(queue: seq<(AiNode, nat)>)
  {
    forall k, k' :: 0 <= k < k' < |queue| ==> queue[k].1 < queue[k'].1
  }

  predicate QueueFillable(queue: seq<(AiNode, nat)>)
  {
    forall k :: 0 <= k < |queue| ==> NodeFillable(queue[k].0)
  }

  /** The whole tree can be filled exactly when every queued subtree can. */
  predicate FillIff(start: AiNode, queue: seq<(AiNode, nat)>)
  {
    NodeFillable(start) <==> QueueFillable(queue)
  }

  /** The loop invariant of `parseScene`: entries off the queue are complete,
      entries on it are blank and stand for their node's tree, the queue's
      entries increase, and the whole tree can be filled exactly when every
      queued subtree can. */
  predicate Inv(start: AiNode, arena: seq<MeshEntry>, want: seq<MeshTree>, done: seq<bool>, queue: seq<(AiNode, nat)>)
  {
    && |arena| > 0 && |want| == |arena| && |done| == |arena| && want[0] == Tree(start)
    && AllDone(arena, want, done)
    && BlanksQueued(arena, done, queue)
    && QueueWants(want, done, queue)
    && Increasing(queue)
    && FillIff(start, queue)
  }

  /** Growing the arena and the wanted trees at their ends keeps a complete
      entry complete. */
  lemma DoneFrame(arena: seq<MeshEntry>, want: seq<MeshTree>, arena': seq<MeshEntry>, want': seq<MeshTree>, i: nat)
    requires |want| == |arena| && i < |arena| && Done(arena, want, i)
    requires |want'| == |arena'| >= |arena| && arena'[i] == arena[i] && want'[..|want|] == want
    ensures Done(arena', want', i)
  {
    var e := arena[i];
    forall k | 0 <= k < |e.subMeshes|
      ensures want'[e.subMeshes[k]] == want'[i].subMeshes[k]
    {
      assert want'[e.subMeshes[k]] == want'[..|want|][e.subMeshes[k]];
      assert want'[i] == want'[..|want|][i];
    }
  }

  /** Two consecutive ranges make one. */
  lemma RangesJoin(base: nat, m: nat, n: nat)
    ensures var r := Range(base, m) + Range(base + m, n);
            |r| == m + n && forall k :: 0 <= k < m + n ==> r[k] == base + k
  {
    var r := Range(base, m) + Range(base + m, n);
    forall k | 0 <= k < m + n
      ensures r[k] == base + k
    {
      if k < m {
        assert r[k] == Range(base, m)[k];
      } else {
        assert r[k] == Range(base + m, n)[k - m];
      }
    }
  }

  /** An entry with the data of the wanted tree whose links point, in order,
      at the entries appended for that tree's sub-meshes is complete. */
  lemma LinksDone(arena: seq<MeshEntry>, want: seq<MeshTree>, a: seq<MeshEntry>, id: nat, s1: seq<MeshTree>, s2: seq<MeshTree>)
    requires |want| == |arena| && id < |arena| && |a| == |arena| + |s1| + |s2| && want[id].subMeshes == s1 + s2
    requires a[id].name == want[id].name && a[id].vertices == want[id].vertices && a[id].indices == want[id].indices
    requires |a[id].subMeshes| == |s1| + |s2| && forall k :: 0 <= k < |s1| + |s2| ==> a[id].subMeshes[k] == |arena| + k
    ensures Done(a, want + s1 + s2, id)
  {
    var w := want + s1 + s2;
    forall k | 0 <= k < |s1| + |s2|
      ensures w[a[id].subMeshes[k]] == w[id].subMeshes[k]
    {
      assert w[|arena| + k] == (s1 + s2)[k];
    }
  }

  /** The visited entry is complete after the visit. */
  lemma VisitedDone(arena: seq<MeshEntry>, want: seq<MeshTree>, node: AiNode, id: nat, a: seq<MeshEntry>)
    requires |want| == |arena| && id < |arena| && want[id] == Tree(node)
    requires |a| == |arena| + |MeshLeaves(node)| + |node.children|
    requires a[id].name == node.name
    requires a[id].vertices == OwnEntry(node).vertices && a[id].indices == OwnEntry(node).indices
    requires a[id].subMeshes == Range(|arena|, |MeshLeaves(node)|) + Range(|arena| + |MeshLeaves(node)|, |node.children|)
    ensures Done(a, want + MeshLeaves(node) + ChildTrees(node), id)
  {
    TreeParts(node);
    RangesJoin(|arena|, |MeshLeaves(node)|, |node.children|);
    LinksDone(arena, want, a, id, MeshLeaves(node), ChildTrees(node));
  }

  /** After a visit, every entry marked done is complete. */
  lemma DoneAfterVisit(arena: seq<MeshEntry>, want: seq<MeshTree>, done: seq<bool>, node: AiNode, id: nat, a: seq<MeshEntry>)
    requires |want| == |arena| == |done| && id < |arena| && !done[id] && want[id] == Tree(node)
    requires AllDone(arena, want, done)
    requires Shaped(arena, a, node, id)
    ensures var leaves := |MeshLeaves(node)|;
            AllDone(a, want + MeshLeaves(node) + ChildTrees(node),
                    done[id := true] + Flags(true, leaves) + Flags(false, |node.children|))
  {
    var leaves := |MeshLeaves(node)|;
    var w := want + MeshLeaves(node) + ChildTrees(node);
    var d := done[id := true] + Flags(true, leaves) + Flags(false, |node.children|);
    assert w[..|want|] == want;
    VisitedDone(arena, want, node, id, a);
    forall i | 0 <= i < |a| && d[i]
      ensures Done(a, w, i)
    {
      if i < |arena| && i != id {
        DoneFrame(arena, want, a, w, i);
      } else if |arena| <= i {
        var k := i - |arena|;
        assert k < leaves && |node.meshes| != 1;
        assert w[i] == MeshLeaves(node)[k] == LeafTree(node.meshes[k]);
      }
    }
  }

  /** After a visit, the blank entries are exactly the queued ones. */
  lemma BlanksAfterVisit(arena: seq<MeshEntry>, done: seq<bool>, queue: seq<(AiNode, nat)>, node: AiNode, a: seq<MeshEntry>)
    requires |done| == |arena| && |queue| > 0 && queue[0].1 < |arena| && queue[0].0 == node
    requires BlanksQueued(arena, done, queue) && Increasing(queue)
    requires Shaped(arena, a, node, queue[0].1)
    ensures var leaves := |MeshLeaves(node)|;
            BlanksQueued(a, done[queue[0].1 := true] + Flags(true, leaves) + Flags(false, |node.children|),
                         queue[1..] + Pending(node.children, |arena| + leaves))
  {
    var id := queue[0].1;
    var leaves := |MeshLeaves(node)|;
    var d := done[id := true] + Flags(true, leaves) + Flags(false, |node.children|);
    var q := queue[1..] + Pending(node.children, |arena| + leaves);
    forall i | 0 <= i < |a| && !d[i]
      ensures a[i] == Blank && i in Ids(q)
    {
      if i < |arena| {
        var k :| 0 <= k < |queue| && queue[k].1 == i;
        assert k != 0;
        assert Ids(q)[k - 1] == queue[k].1;
      } else {
        var c := i - |arena| - leaves;
        assert Ids(q)[|queue| - 1 + c] == i;
      }
    }
  }

  /** After a visit, queued entries stand for their trees. */
  lemma QueueAfterVisit(arena: seq<MeshEntry>, want: seq<MeshTree>, done: seq<bool>, queue: seq<(AiNode, nat)>, node: AiNode)
    requires |want| == |arena| == |done| && |queue| > 0 && queue[0].0 == node && queue[0].1 < |done|
    requires QueueWants(want, done, queue) && Increasing(queue)
    ensures QueueWants(want + MeshLeaves(node) + ChildTrees(node),
                       done[queue[0].1 := true] + Flags(true, |MeshLeaves(node)|) + Flags(false, |node.children|),
                       queue[1..] + Pending(node.children, |arena| + |MeshLeaves(node)|))
  {
    var id := queue[0].1;
    var leaves := |MeshLeaves(node)|;
    var w := want + MeshLeaves(node) + ChildTrees(node);
    var d := done[id := true] + Flags(true, leaves) + Flags(false, |node.children|);
    var rest := queue[1..];
    var q := rest + Pending(node.children, |arena| + leaves);
    forall k | 0 <= k < |q|
      ensures QueueWant(w, d, q, k)
    {
      if k < |rest| {
        assert q[k] == rest[k] == queue[k + 1];
        assert QueueWant(want, done, queue, k + 1) && QueueWant(want, done, queue, 0);
        assert queue[0].1 < queue[k + 1].1;
        assert w[q[k].1] == want[q[k].1];
      } else {
        var c := k - |rest|;
        assert q[k] == (node.children[c], |arena| + leaves + c);
        assert w[|arena| + leaves + c] == ChildTrees(node)[c];
      }
    }
  }

  /** After a visit, the queue's entries still increase. */
  lemma IncreasingAfterVisit(queue: seq<(AiNode, nat)>, children: seq<AiNode>, base: nat)
    requires |queue| > 0 && Increasing(queue) && queue[|queue| - 1].1 < base
    ensures Increasing(queue[1..] + Pending(children, base))
  {
    var rest := queue[1..];
    var q := rest + Pending(children, base);
    forall k, k' | 0 <= k < k' < |q|
      ensures q[k].1 < q[k'].1
    {
      if k' < |rest| {
        assert q[k] == queue[k + 1] && q[k'] == queue[k' + 1];
      } else if k < |rest| {
        assert q[k] == queue[k + 1];
        assert queue[k + 1].1 <= queue[|queue| - 1].1;
      }
    }
  }

  /** A node whose own meshes can be filled is fillable exactly when all its
      children are, so replacing it by its children keeps the queue's
      fillability. */
  lemma FillAfterVisit(start: AiNode, queue: seq<(AiNode, nat)>, node: AiNode, base: nat)
    requires |queue| > 0 && queue[0].0 == node && FillIff(start, queue)
    requires forall k :: 0 <= k < |node.meshes| ==> Fillable(node.meshes[k])
    ensures FillIff(start, queue[1..] + Pending(node.children, base))
  {
    var q := queue[1..] + Pending(node.children, base);
    var rest := queue[1..];
    assert QueueFillable(queue) <==> NodeFillable(node) && QueueFillable(rest) by {
      if NodeFillable(node) && QueueFillable(rest) {
        forall k | 0 <= k < |queue|
          ensures NodeFillable(queue[k].0)
        {
          if k > 0 {
            assert queue[k] == rest[k - 1];
          }
        }
      }
      if QueueFillable(queue) {
        forall k | 0 <= k < |rest|
          ensures NodeFillable(rest[k].0)
        {
          assert rest[k] == queue[k + 1];
        }
      }
    }
    assert QueueFillable(q) <==> QueueFillable(rest) && QueueFillable(Pending(node.children, base)) by {
      if QueueFillable(rest) && QueueFillable(Pending(node.children, base)) {
        forall k | 0 <= k < |q|
          ensures NodeFillable(q[k].0)
        {
          if k >= |rest| {
            assert q[k] == Pending(node.children, base)[k - |rest|];
          } else {
            assert q[k] == rest[k];
          }
        }
      }
      if QueueFillable(q) {
        forall k | 0 <= k < |rest|
          ensures NodeFillable(rest[k].0)
        {
          assert q[k] == rest[k];
        }
        forall c | 0 <= c < |node.children|
          ensures NodeFillable(Pending(node.children, base)[c].0)
        {
          assert q[|rest| + c] == Pending(node.children, base)[c];
        }
      }
    }
    assert QueueFillable(Pending(node.children, base)) <==> NodeFillable(node) by {
      assert forall c :: 0 <= c < |node.children| ==> Pending(node.children, base)[c].0 == node.children[c];
    }
  }

  /** One visit keeps the arena half of the invariant: sizes, completed
      entries and blank entries. */
  lemma VisitKeepsArena(start: AiNode, arena: seq<MeshEntry>, want: seq<MeshTree>, done: seq<bool>,
                        queue: seq<(AiNode, nat)>, node: AiNode, id: nat, a: seq<MeshEntry>, q: seq<(AiNode, nat)>)
    requires Inv(start, arena, want, done, queue) && |queue| > 0 && queue[0] == (node, id) && id < |arena|
    requires Shaped(arena, a, node, id) && q == queue[1..] + Pending(node.children, |arena| + |MeshLeaves(node)|)
    ensures var w := want + MeshLeaves(node) + ChildTrees(node);
            var d := done[id := true] + Flags(true, |MeshLeaves(node)|) + Flags(false, |node.children|);
            && |a| > 0 && |w| == |a| && |d| == |a| && w[0] == Tree(start)
            && AllDone(a, w, d) && BlanksQueued(a, d, q)
  {
    assert QueueWant(want, done, queue, 0);
    DoneAfterVisit(arena, want, done, node, id, a);
    BlanksAfterVisit(arena, done, queue, node, a);
  }

  /** One visit keeps the queued entries standing for their trees. */
  lemma VisitKeepsWants(start: AiNode, arena: seq<MeshEntry>, want: seq<MeshTree>, done: seq<bool>,
                        queue: seq<(AiNode, nat)>, node: AiNode, id: nat, q: seq<(AiNode, nat)>)
    requires Inv(start, arena, want, done, queue) && |queue| > 0 && queue[0] == (node, id) && id < |arena|
    requires q == queue[1..] + Pending(node.children, |arena| + |MeshLeaves(node)|)
    ensures QueueWants(want + MeshLeaves(node) + ChildTrees(node),
                       done[id := true] + Flags(true, |MeshLeaves(node)|) + Flags(false, |node.children|), q)
  {
    QueueAfterVisit(arena, want, done, queue, node);
  }

  /** One visit keeps the queue's entries increasing. */
  lemma VisitKeepsOrder(start: AiNode, arena: seq<MeshEntry>, want: seq<MeshTree>, done: seq<bool>,
                        queue: seq<(AiNode, nat)>, node: AiNode, id: nat, q: seq<(AiNode, nat)>)
    requires Inv(start, arena, want, done, queue) && |queue| > 0 && queue[0] == (node, id) && id < |arena|
    requires q == queue[1..] + Pending(node.children, |arena| + |MeshLeaves(node)|)
    ensures Increasing(q)
  {
    LastInArena(start, arena, want, done, queue);
    IncreasingAfterVisit(queue, node.children, |arena| + |MeshLeaves(node)|);
  }

  /** The last queued entry is in the arena. */
  lemma LastInArena(start: AiNode, arena: seq<MeshEntry>, want: seq<MeshTree>, done: seq<bool>, queue: seq<(AiNode, nat)>)
    requires Inv(start, arena, want, done, queue) && |queue| > 0
    ensures queue[|queue| - 1].1 < |arena|
  {
    assert QueueWant(want, done, queue, |queue| - 1);
  }

  /** One visit whose meshes can be filled keeps the fillability of the queue. */
  lemma VisitKeepsFill(start: AiNode, arena: seq<MeshEntry>, want: seq<MeshTree>, done: seq<bool>,
                       queue: seq<(AiNode, nat)>, node: AiNode, id: nat, q: seq<(AiNode, nat)>)
    requires Inv(start, arena, want, done, queue) && |queue| > 0 && queue[0] == (node, id) && id < |arena|
    requires forall k :: 0 <= k < |node.meshes| ==> Fillable(node.meshes[k])
    requires q == queue[1..] + Pending(node.children, |arena| + |MeshLeaves(node)|)
    ensures FillIff(start, q)
  {
    FillAfterVisit(start, queue, node, |arena| + |MeshLeaves(node)|);
  }

  /** One visit keeps the loop invariant of `parseScene`. */
  lemma VisitKeepsInv(start: AiNode, arena: seq<MeshEntry>, want: seq<MeshTree>, done: seq<bool>,
                      queue: seq<(AiNode, nat)>, node: AiNode, id: nat, a: seq<MeshEntry>, q: seq<(AiNode, nat)>)
    requires Inv(start, arena, want, done, queue) && |queue| > 0 && queue[0] == (node, id) && id < |arena|
    requires forall k :: 0 <= k < |node.meshes| ==> Fillable(node.meshes[k])
    requires Shaped(arena, a, node, id) && q == queue[1..] + Pending(node.children, |arena| + |MeshLeaves(node)|)
    ensures Inv(start, a, want + MeshLeaves(node) + ChildTrees(node),
                done[id := true] + Flags(true, |MeshLeaves(node)|) + Flags(false, |node.children|), q)
  {
    VisitKeepsArena(start, arena, want, done, queue, node, id, a, q);
    VisitKeepsWants(start, arena, want, done, queue, node, id, q);
    VisitKeepsOrder(start, arena, want, done, queue, node, id, q);
    VisitKeepsFill(start, arena, want, done, queue, node, id, q);
  }

  /** The visit of one dequeued node: name its entry, fill it from its only
      mesh or add one filled sub-mesh per mesh, then add one empty sub-mesh
      per child and queue the children with them.  Fails when one of the
      node's meshes cannot be filled. */
  method VisitNode(arena: seq<MeshEntry>, node: AiNode, id: nat)
    returns (r: Result<seq<MeshEntry>, MeshError>, added: seq<(AiNode, nat)>)
    requires id < |arena|
    ensures r.Ok? <==> forall k :: 0 <= k < |node.meshes| ==> Fillable(node.meshes[k])
    ensures r.Ok? ==> r.value == Visit(arena, node, id)
    ensures r.Ok? ==> added == Pending(node.children, |arena| + |MeshLeaves(node)|)
  {
    var cur := arena[id := arena[id].(name := node.name)];
    if |node.meshes| == 1 {
      var f := FillMeshData(node.meshes[0], cur[id]);
      FillOutcome(node.meshes[0], cur[id]);
      if f.Err? {
        return Err(f.error), [];
      }
      cur := cur[id := f.value];
    } else {
      var f := AddMeshSubs(cur, id, node.meshes);
      if f.Err? {
        return Err(f.error), [];
      }
      cur := f.value;
    }
    cur, added := AddChildren(cur, id, node.children);
    r := Ok(cur);
  }

  // ---------------------------------------------------------------------
  // parseScene

  function Sum(s: seq<nat>): nat
  {
    if s == [] then 0 else s[0] + Sum(s[1..])
  }

  lemma {:induction false} SumAppend(a: seq<nat>, b: seq<nat>)
    ensures Sum(a + b) == Sum(a) + Sum(b)
  {
    if a == [] {
      assert a + b == b;
    } else {
      assert (a + b)[1..] == a[1..] + b;
      SumAppend(a[1..], b);
    }
  }

  /** The sizes of the children of a node. */
  function ChildSizes(node: AiNode): seq<nat>
    decreases node, 0
  {
    seq(|node.children|, c requires 0 <= c < |node.children| => Size(node.children[c]))
  }

  /** The number of nodes in a subtree. */
  function Size(node: AiNode): nat
    decreases node, 1
  {
    1 + Sum(ChildSizes(node))
  }

  function QueueSizes(queue: seq<(AiNode, nat)>): (r: seq<nat>)
    ensures |r| == |queue|
  {
    seq(|queue|, k requires 0 <= k < |queue| => Size(queue[k].0))
  }

  /** Replacing the front node of the queue by its children leaves fewer
      nodes to visit. */
  lemma QueueShrinks(queue: seq<(AiNode, nat)>, node: AiNode, base: nat, q: seq<(AiNode, nat)>)
    requires |queue| > 0 && queue[0].0 == node && q == queue[1..] + Pending(node.children, base)
    ensures Sum(QueueSizes(q)) < Sum(QueueSizes(queue))
  {
    assert QueueSizes(q) == QueueSizes(queue)[1..] + ChildSizes(node);
    SumAppend(QueueSizes(queue)[1..], ChildSizes(node));
  }

  /** The invariant holds for the one blank entry of the start node. */
  lemma InvAtStart(start: AiNode)
    ensures Inv(start, [Blank], [Tree(start)], [false], [(start, 0)])
  {
    var queue := [(start, 0)];
    assert QueueWant([Tree(start)], [false], queue, 0);
    assert FillIff(start, queue) by {
      assert queue[0].0 == start;
    }
  }

  /** The head of the queue names a blank entry of the arena, and a mesh of
      the head node that cannot be filled makes the whole tree unfillable. */
  lemma Head(start: AiNode, arena: seq<MeshEntry>, want: seq<MeshTree>, done: seq<bool>, queue: seq<(AiNode, nat)>)
    requires Inv(start, arena, want, done, queue) && |queue| > 0
    ensures queue[0].1 < |arena| && arena[queue[0].1] == Blank
    ensures !(forall k :: 0 <= k < |queue[0].0.meshes| ==> Fillable(queue[0].0.meshes[k])) ==> !NodeFillable(start)
  {
    assert QueueWant(want, done, queue, 0);
    if !forall k :: 0 <= k < |queue[0].0.meshes| ==> Fillable(queue[0].0.meshes[k]) {
      assert !NodeFillable(queue[0].0);
    }
  }

  /** A successful visit of the head keeps the invariant and shortens the
      work left on the queue. */
  lemma Visited(start: AiNode, arena: seq<MeshEntry>, want: seq<MeshTree>, done: seq<bool>, queue: seq<(AiNode, nat)>,
                node: AiNode, id: nat, a: seq<MeshEntry>, q: seq<(AiNode, nat)>)
    requires Inv(start, arena, want, done, queue) && |queue| > 0 && queue[0] == (node, id)
    requires id < |arena| && arena[id] == Blank && a == Visit(arena, node, id)
    requires forall k :: 0 <= k < |node.meshes| ==> Fillable(node.meshes[k])
    requires q == queue[1..] + Pending(node.children, |arena| + |MeshLeaves(node)|)
    ensures Inv(start, a, want + MeshLeaves(node) + ChildTrees(node),
                done[id := true] + Flags(true, |MeshLeaves(node)|) + Flags(false, |node.children|), q)
    ensures Sum(QueueSizes(q)) < Sum(QueueSizes(queue))
  {
    QueueShrinks(queue, node, |arena| + |MeshLeaves(node)|, q);
    VisitShape(arena, node, id, a);
    VisitKeepsInv(start, arena, want, done, queue, node, id, a, q);
  }

  /** With the queue empty, the arena stands for the start node's tree. */
  lemma InvAtEnd(start: AiNode, arena: seq<MeshEntry>, want: seq<MeshTree>, done: seq<bool>)
    requires Inv(start, arena, want, done, [])
    ensures NodeFillable(start) && |arena| > 0 && Ordered(arena) && Denote(arena, 0) == Tree(start)
  {
    forall i | 0 <= i < |arena|
      ensures Done(arena, want, i)
    {
      assert Ids([]) == [];
    }
    DenoteComplete(arena, want, 0);
  }

  /** `parseScene`: the entries of the MeshData tree, root first, each
      listing the positions of its sub-meshes.  It fails exactly when some
      mesh below the start node cannot be filled; otherwise the entries
      stand for the tree of the start node. */
  method ParseScene(root: AiNode) returns (r: Result<seq<MeshEntry>, MeshError>)
    ensures r.Ok? <==> NodeFillable(Start(root))
    ensures r.Ok? ==> |r.value| > 0 && Ordered(r.value) && Denote(r.value, 0) == Tree(Start(root))
  {
    var rootNode := root;
    while |rootNode.meshes| == 0 && |rootNode.children| == 1
      invariant Start(rootNode) == Start(root)
      decreases rootNode
    {
      rootNode := rootNode.children[0];
    }
    var arena := [Blank];
    var queue := [(rootNode, 0)];
    ghost var want := [Tree(rootNode)];
    ghost var done := [false];
    InvAtStart(rootNode);
    while queue != []
      invariant Inv(rootNode, arena, want, done, queue)
      decreases Sum(QueueSizes(queue))
    {
      var node := queue[0].0;
      var id := queue[0].1;
      Head(rootNode, arena, want, done, queue);
      var visited, added := VisitNode(arena, node, id);
      if visited.Err? {
        return Err(visited.error);
      }
      Visited(rootNode, arena, want, done, queue, node, id, visited.value, queue[1..] + added);
      done := done[id := true] + Flags(true, |MeshLeaves(node)|) + Flags(false, |node.children|);
      want := want + MeshLeaves(node) + ChildTrees(node);
      arena := visited.value;
      queue := queue[1..] + added;
    }
    InvAtEnd(rootNode, arena, want, done);
    r := Ok(arena);
  }

  /** `createFromArrays`: an entry holding exactly the given data and no
      sub-meshes; the stride does not enter the entry. */
  function CreateFromArrays(name: string, vertices: seq<real>, indices: seq<nat>, vertexStride: nat): (r: MeshEntry)
    ensures Ordered([r]) && Denote([r], 0) == MeshTree(name, vertices, indices, [])
  {
    MeshEntry(name, vertices, indices, [])
  }
}

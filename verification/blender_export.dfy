/** The Blender-side map exporter (resources/blender_export_map.py): every mesh
    object of the scene becomes one flat asset record with an interleaved
    8-float vertex buffer, a triangle index buffer and collider half-extents.

    Vertices are deduplicated on the exact (position, uv, normal) key.  As
    written, the index recorded for a new key is the length of the FLOAT
    buffer at that moment, i.e. eight times the vertex ordinal, and positions,
    UVs and normals are copied without any axis conversion or V flip. */
module BlenderExport {
  import opened Common

  datatype ObjectType = Mesh | Other(typeName: string)

  /** One face corner: the index of the mesh vertex it uses, the value of the
      active UV layer at this corner, and the corner normal. */
  datatype LoopRec = LoopRec(vertexIndex: nat, uv: Vec2, normal: Vec3)

  /** A mesh as the exporter reads it: vertex positions in local space, and
      faces as ordered corner lists.  `hasUvs` says whether an active UV layer
      exists; when it does not, the corners' `uv` values are not read. */
  datatype SourceMesh = SourceMesh(positions: seq<Vec3>, faces: seq<seq<LoopRec>>, hasUvs: bool)

  /** A scene object with its world matrix already decomposed (and the
      rotation normalised) by the host. */
  datatype SceneObject = SceneObject(
    name: string, kind: ObjectType,
    position: Vec3, rotation: Quat, scale: Vec3,
    mesh: SourceMesh)

  /** The exact-equality deduplication key. */
  datatype VertexKey = VertexKey(pos: Vec3, uv: Vec2, normal: Vec3)

  /** Half-extents; an empty vertex set leaves the bounding box at its
      infinite start values, which gives a non-finite result. */
  datatype Extent = Finite(v: Vec3) | NonFinite

  datatype MeshAsset = MeshAsset(
    name: string, vertices: seq<real>, indices: seq<nat>,
    position: Vec3, rotation: Quat, scale: Vec3,
    colliderHalfExtents: Extent)

  /** What extracting one object yields: no record for a non-mesh object, a
      failure when a corner names a vertex the mesh does not have (the
      IndexError the host would raise), or the record. */
  datatype Extraction = NotMesh | Failed | Extracted(asset: MeshAsset)

  datatype SceneDocument = SceneDocument(version: int, objects: seq<MeshAsset>)

  /** The end of one run of the exporter's main script. */
  datatype ExportOutcome =
    | NoMeshObjects
    | NothingExported(failedCount: nat)
    | Written(doc: SceneDocument, failedCount: nat)

  const FloatsPerVertex: nat := 8
  const DocumentVersion: int := 1

  // ---------------------------------------------------------------------
  // Deduplication specification

  ghost predicate NoDup(s: seq<VertexKey>) {
    forall i, j :: 0 <= i < j < |s| ==> s[i] != s[j]
  }

  /** The distinct keys of `ks`, in order of first occurrence. */
  function FirstSeen(ks: seq<VertexKey>): (d: seq<VertexKey>)
    ensures forall k :: k in d <==> k in ks
  {
    if ks == [] then []
    else
      var prev := FirstSeen(ks[..|ks| - 1]);
      var k := ks[|ks| - 1];
      assert forall x :: x in ks <==> x in ks[..|ks| - 1] || x == k;
      if k in prev then prev else prev + [k]
  }

  lemma {:induction false} FirstSeenNoDup(ks: seq<VertexKey>)
    ensures NoDup(FirstSeen(ks))
  {
    if ks != [] {
      FirstSeenNoDup(ks[..|ks| - 1]);
    }
  }

  /** One more key is appended to the distinct keys exactly when it is new. */
  lemma FirstSeenSnoc(ks: seq<VertexKey>, k: VertexKey)
    ensures FirstSeen(ks + [k]) == if k in FirstSeen(ks) then FirstSeen(ks) else FirstSeen(ks) + [k]
  {
    assert (ks + [k])[..|ks + [k]| - 1] == ks;
  }

  /** Seeing more keys only ever appends to the list of distinct keys. */
  lemma {:induction false} FirstSeenExtends(a: seq<VertexKey>, b: seq<VertexKey>)
    ensures FirstSeen(a) <= FirstSeen(a + b)
    decreases |b|
  {
    if b == [] {
      assert a + b == a;
    } else {
      var b' := b[..|b| - 1];
      assert a + b == (a + b') + [b[|b| - 1]];
      FirstSeenExtends(a, b');
      FirstSeenSnoc(a + b', b[|b| - 1]);
      var prev := FirstSeen(a + b');
      assert prev <= FirstSeen(a + b);
      assert FirstSeen(a) == prev[..|FirstSeen(a)|];
      assert FirstSeen(a) == FirstSeen(a + b)[..|FirstSeen(a)|];
    }
  }

  /** The position of `k` in `d`: its first occurrence. */
  function Slot(d: seq<VertexKey>, k: VertexKey): (i: nat)
    requires k in d
    ensures i < |d| && d[i] == k
    ensures forall j :: 0 <= j < i ==> d[j] != k
  {
    if d[0] == k then 0 else 1 + Slot(d[1..], k)
  }

  lemma SlotStable(d: seq<VertexKey>, e: seq<VertexKey>, k: VertexKey)
    requires k in d
    ensures Slot(d + e, k) == Slot(d, k)
  {
    var i := Slot(d, k);
    assert (d + e)[i] == k;
  }

  /** The eight floats written for one vertex, in the buffer's fixed order. */
  function VertexFloats(k: VertexKey): (r: seq<real>)
  {
    [k.pos.x, k.pos.y, k.pos.z, k.uv.x, k.uv.y, k.normal.x, k.normal.y, k.normal.z]
  }

  /** The interleaved vertex buffer of a list of distinct keys. */
  function VertexBuffer(d: seq<VertexKey>): (r: seq<real>)
    ensures |r| == FloatsPerVertex * |d|
  {
    if d == [] then [] else VertexBuffer(d[..|d| - 1]) + VertexFloats(d[|d| - 1])
  }

  /** Vertex `i` occupies floats 8i .. 8i+7 of the buffer. */
  lemma {:induction false} VertexBufferAt(d: seq<VertexKey>, i: nat, c: nat)
    requires i < |d| && c < FloatsPerVertex
    ensures FloatsPerVertex * i + c < |VertexBuffer(d)|
    ensures VertexBuffer(d)[FloatsPerVertex * i + c] == VertexFloats(d[i])[c]
  {
    if i < |d| - 1 {
      VertexBufferAt(d[..|d| - 1], i, c);
    }
  }

  // ---------------------------------------------------------------------
  // Triangulation specification

  /** The first `n` fan triangles (0, t+1, t+2), t = 0 .. n-1. */
  function FanUpTo(fv: seq<nat>, n: nat): (r: seq<nat>)
    requires n + 2 <= |fv|
    ensures |r| == 3 * n
  {
    if n == 0 then [] else FanUpTo(fv, n - 1) + [fv[0], fv[n], fv[n + 1]]
  }

  /** Fan triangulation anchored at corner 0: k - 2 triangles for a face of
      k >= 3 corners, nothing for fewer. */
  function Fan(fv: seq<nat>): (r: seq<nat>)
  {
    if |fv| < 3 then [] else FanUpTo(fv, |fv| - 2)
  }

  /** Triangle `t` of the fan is (corner 0, corner t+1, corner t+2). */
  lemma {:induction false} FanTriangle(fv: seq<nat>, n: nat, t: nat)
    requires n + 2 <= |fv| && t < n
    ensures FanUpTo(fv, n)[3 * t] == fv[0]
    ensures FanUpTo(fv, n)[3 * t + 1] == fv[t + 1]
    ensures FanUpTo(fv, n)[3 * t + 2] == fv[t + 2]
  {
    if t < n - 1 {
      FanTriangle(fv, n - 1, t);
    }
  }

  /** A face of k corners gives 3(k - 2) indices when k >= 3 and none
      otherwise; either way whole triangles, all anchored at corner 0. */
  lemma FanShape(fv: seq<nat>)
    ensures |Fan(fv)| == if |fv| < 3 then 0 else 3 * (|fv| - 2)
    ensures |Fan(fv)| % 3 == 0
    ensures forall t :: 0 <= t && t + 2 < |fv| ==>
      Fan(fv)[3 * t] == fv[0] && Fan(fv)[3 * t + 1] == fv[t + 1] && Fan(fv)[3 * t + 2] == fv[t + 2]
  {
    forall t | 0 <= t && t + 2 < |fv|
      ensures Fan(fv)[3 * t] == fv[0] && Fan(fv)[3 * t + 1] == fv[t + 1] && Fan(fv)[3 * t + 2] == fv[t + 2]
    {
      FanTriangle(fv, |fv| - 2, t);
    }
  }

  /** Every fan index is one of the face's own indices. */
  lemma {:induction false} FanMembers(fv: seq<nat>, n: nat)
    requires n + 2 <= |fv|
    ensures forall x :: x in FanUpTo(fv, n) ==> x in fv
  {
    if n > 0 {
      FanMembers(fv, n - 1);
    }
  }

  /** The face-size dispatch as the exporter writes it: a triangle is copied,
      a quad split into (0,1,2),(0,2,3), a larger face fanned, and a face of
      fewer than three corners gives nothing.  Every case is the fan rule. */
  method TriangulateFace(fv: seq<nat>) returns (tris: seq<nat>)
    ensures tris == Fan(fv)
  {
    if |fv| == 3 {
      tris := fv;
      assert FanUpTo(fv, 1) == [fv[0], fv[1], fv[2]];
    } else if |fv| == 4 {
      tris := [fv[0], fv[1], fv[2]] + [fv[0], fv[2], fv[3]];
      assert FanUpTo(fv, 1) == [fv[0], fv[1], fv[2]];
    } else {
      tris := [];
      var i := 1;
      while i < |fv| - 1
        invariant 1 <= i
        invariant |fv| >= 2 ==> i <= |fv| - 1
        invariant |fv| >= 3 ==> tris == FanUpTo(fv, i - 1)
        invariant |fv| < 3 ==> tris == []
      {
        tris := tris + [fv[0], fv[i], fv[i + 1]];
        i := i + 1;
      }
    }
  }

  // ---------------------------------------------------------------------
  // Keys of a mesh

  /** Every corner of `face` names an existing vertex. */
  predicate ValidFace(m: SourceMesh, face: seq<LoopRec>) {
    forall l :: 0 <= l < |face| ==> face[l].vertexIndex < |m.positions|
  }

  /** The corners of the first `n` faces all name existing vertices. */
  predicate ValidUpTo(m: SourceMesh, n: nat)
    requires n <= |m.faces|
  {
    forall f :: 0 <= f < n ==> ValidFace(m, m.faces[f])
  }

  predicate ValidCorners(m: SourceMesh) {
    ValidUpTo(m, |m.faces|)
  }

  function CornerKey(m: SourceMesh, c: LoopRec): VertexKey
    requires c.vertexIndex < |m.positions|
  {
    VertexKey(m.positions[c.vertexIndex], if m.hasUvs then c.uv else Vec2(0.0, 0.0), c.normal)
  }

  /** The keys of a face's corners, in corner order. */
  function FaceKeys(m: SourceMesh, face: seq<LoopRec>): (ks: seq<VertexKey>)
    requires ValidFace(m, face)
    ensures |ks| == |face|
  {
    if face == [] then []
    else FaceKeys(m, face[..|face| - 1]) + [CornerKey(m, face[|face| - 1])]
  }

  /** The keys of the corners of the first `n` faces, in traversal order. */
  function KeysUpTo(m: SourceMesh, n: nat): seq<VertexKey>
    requires n <= |m.faces| && ValidUpTo(m, n)
  {
    if n == 0 then [] else KeysUpTo(m, n - 1) + FaceKeys(m, m.faces[n - 1])
  }

  function AllKeys(m: SourceMesh): seq<VertexKey>
    requires ValidCorners(m)
  {
    KeysUpTo(m, |m.faces|)
  }

  /** The keys of the first `n` faces are those of the first `n - 1` faces
      followed by those of face `n - 1`. */
  lemma KeysUpToStep(m: SourceMesh, n: nat, d: seq<VertexKey>)
    requires 0 < n <= |m.faces| && ValidUpTo(m, n)
    requires forall k :: k in KeysUpTo(m, n) ==> k in d
    ensures ValidUpTo(m, n - 1) && ValidFace(m, m.faces[n - 1])
    ensures forall k :: k in KeysUpTo(m, n - 1) ==> k in d
    ensures forall k :: k in FaceKeys(m, m.faces[n - 1]) ==> k in d
  {
    assert ValidUpTo(m, n - 1);
    assert KeysUpTo(m, n) == KeysUpTo(m, n - 1) + FaceKeys(m, m.faces[n - 1]);
  }

  /** The float offsets of a face's keys: eight times each key's slot. */
  function FaceSlots(d: seq<VertexKey>, fk: seq<VertexKey>): (r: seq<nat>)
    requires forall k :: k in fk ==> k in d
    ensures |r| == |fk|
    ensures forall x :: x in r ==> x % FloatsPerVertex == 0 && x < FloatsPerVertex * |d|
  {
    if fk == [] then []
    else FaceSlots(d, fk[..|fk| - 1]) + [FloatsPerVertex * Slot(d, fk[|fk| - 1])]
  }

  /** The index buffer of the first `n` faces when the distinct keys are `d`. */
  function IndexBufferUpTo(m: SourceMesh, n: nat, d: seq<VertexKey>): seq<nat>
    requires n <= |m.faces| && ValidUpTo(m, n)
    requires forall k :: k in KeysUpTo(m, n) ==> k in d
  {
    if n == 0 then []
    else IndexBufferUpTo(m, n - 1, d) + Fan(FaceSlots(d, FaceKeys(m, m.faces[n - 1])))
  }

  lemma {:induction false} FaceSlotsStable(d: seq<VertexKey>, e: seq<VertexKey>, fk: seq<VertexKey>)
    requires forall k :: k in fk ==> k in d
    ensures FaceSlots(d + e, fk) == FaceSlots(d, fk)
  {
    if fk != [] {
      FaceSlotsStable(d, e, fk[..|fk| - 1]);
      SlotStable(d, e, fk[|fk| - 1]);
    }
  }

  lemma {:induction false} IndexBufferStable(m: SourceMesh, n: nat, d: seq<VertexKey>, e: seq<VertexKey>)
    requires n <= |m.faces| && ValidUpTo(m, n)
    requires forall k :: k in KeysUpTo(m, n) ==> k in d
    ensures IndexBufferUpTo(m, n, d + e) == IndexBufferUpTo(m, n, d)
  {
    if n > 0 {
      assert ValidUpTo(m, n - 1);
      IndexBufferStable(m, n - 1, d, e);
      FaceSlotsStable(d, e, FaceKeys(m, m.faces[n - 1]));
    }
  }

  /** Processing one more face extends the index buffer by that face's fan,
      and leaves the indices already written valid for the grown key list. */
  lemma IndexBufferStep(m: SourceMesh, f: nat)
    requires f < |m.faces| && ValidUpTo(m, f + 1)
    ensures ValidUpTo(m, f)
    ensures var d := FirstSeen(KeysUpTo(m, f));
      var d' := FirstSeen(KeysUpTo(m, f + 1));
      IndexBufferUpTo(m, f + 1, d') ==
        IndexBufferUpTo(m, f, d) + Fan(FaceSlots(d', FaceKeys(m, m.faces[f])))
  {
    var d := FirstSeen(KeysUpTo(m, f));
    var d' := FirstSeen(KeysUpTo(m, f + 1));
    FirstSeenExtends(KeysUpTo(m, f), FaceKeys(m, m.faces[f]));
    assert d' == d + d'[|d|..];
    IndexBufferStable(m, f, d, d'[|d|..]);
  }

  // ---------------------------------------------------------------------
  // Bounding box specification

  datatype Bound = NegInf | Fin(r: real) | PosInf

  function Coord(p: Vec3, axis: nat): real {
    if axis == 0 then p.x else if axis == 1 then p.y else p.z
  }

  function MinCoord(ps: seq<Vec3>, axis: nat): (r: real)
    requires ps != []
    ensures forall i :: 0 <= i < |ps| ==> r <= Coord(ps[i], axis)
    ensures exists i :: 0 <= i < |ps| && r == Coord(ps[i], axis)
  {
    if |ps| == 1 then Coord(ps[0], axis)
    else
      var r := Min(MinCoord(ps[..|ps| - 1], axis), Coord(ps[|ps| - 1], axis));
      assert forall i :: 0 <= i < |ps| - 1 ==> ps[..|ps| - 1][i] == ps[i];
      r
  }

  function MaxCoord(ps: seq<Vec3>, axis: nat): (r: real)
    requires ps != []
    ensures forall i :: 0 <= i < |ps| ==> Coord(ps[i], axis) <= r
    ensures exists i :: 0 <= i < |ps| && r == Coord(ps[i], axis)
  {
    if |ps| == 1 then Coord(ps[0], axis)
    else
      var r := Max(MaxCoord(ps[..|ps| - 1], axis), Coord(ps[|ps| - 1], axis));
      assert forall i :: 0 <= i < |ps| - 1 ==> ps[..|ps| - 1][i] == ps[i];
      r
  }

  /** The running bounds: +inf and -inf before any vertex. */
  function LowBound(ps: seq<Vec3>, axis: nat): Bound {
    if ps == [] then PosInf else Fin(MinCoord(ps, axis))
  }

  function HighBound(ps: seq<Vec3>, axis: nat): Bound {
    if ps == [] then NegInf else Fin(MaxCoord(ps, axis))
  }

  /** `min` and `max` as the loop applies them. */
  function Lower(b: Bound, x: real): Bound {
    match b
    case PosInf => Fin(x)
    case NegInf => NegInf
    case Fin(r) => Fin(Min(r, x))
  }

  function Upper(b: Bound, x: real): Bound {
    match b
    case NegInf => Fin(x)
    case PosInf => PosInf
    case Fin(r) => Fin(Max(r, x))
  }

  /** Half the extent from `lo` to `hi`, scaled by |s|. */
  function Span(lo: real, hi: real, s: real): real {
    (hi - lo) / 2.0 * Abs(s)
  }

  function HalfExtent(ps: seq<Vec3>, axis: nat, s: real): real
    requires ps != []
  {
    Span(MinCoord(ps, axis), MaxCoord(ps, axis), s)
  }

  /** Collider half-extents over ALL mesh vertices, scaled by |scale|. */
  function HalfExtents(ps: seq<Vec3>, scale: Vec3): Extent {
    if ps == [] then NonFinite
    else Finite(Vec3(HalfExtent(ps, 0, scale.x), HalfExtent(ps, 1, scale.y), HalfExtent(ps, 2, scale.z)))
  }

  lemma SpanSign(lo: real, hi: real, s: real)
    requires lo <= hi
    ensures Span(lo, hi, s) >= 0.0
    ensures s != 0.0 ==> (Span(lo, hi, s) == 0.0 <==> lo == hi)
  {
    var w := (hi - lo) / 2.0;
    assert w >= 0.0;
    if s != 0.0 {
      assert Abs(s) > 0.0;
      if w * Abs(s) == 0.0 {
        assert w == 0.0;
      }
    }
  }

  /** A half-extent is never negative, and for a non-zero scale it is zero
      exactly when every vertex has the same coordinate on that axis. */
  lemma HalfExtentSign(ps: seq<Vec3>, axis: nat, s: real)
    requires ps != []
    ensures HalfExtent(ps, axis, s) >= 0.0
    ensures s != 0.0 ==>
      (HalfExtent(ps, axis, s) == 0.0 <==>
       forall i :: 0 <= i < |ps| ==> Coord(ps[i], axis) == Coord(ps[0], axis))
  {
    var lo, hi := MinCoord(ps, axis), MaxCoord(ps, axis);
    assert lo <= Coord(ps[0], axis) <= hi;
    SpanSign(lo, hi, s);
    if forall i :: 0 <= i < |ps| ==> Coord(ps[i], axis) == Coord(ps[0], axis) {
      var i :| 0 <= i < |ps| && lo == Coord(ps[i], axis);
      var j :| 0 <= j < |ps| && hi == Coord(ps[j], axis);
      assert hi == lo;
    }
  }

  lemma BoundsStep(ps: seq<Vec3>, i: nat, axis: nat)
    requires i < |ps|
    ensures LowBound(ps[..i + 1], axis) == Lower(LowBound(ps[..i], axis), Coord(ps[i], axis))
    ensures HighBound(ps[..i + 1], axis) == Upper(HighBound(ps[..i], axis), Coord(ps[i], axis))
  {
    assert ps[..i + 1][..i] == ps[..i];
  }

  /** The bounding-box loop over every vertex of the mesh. */
  method BoundingHalfExtents(ps: seq<Vec3>, scale: Vec3) returns (h: Extent)
    ensures h == HalfExtents(ps, scale)
  {
    var loX, loY, loZ := PosInf, PosInf, PosInf;
    var hiX, hiY, hiZ := NegInf, NegInf, NegInf;
    for i := 0 to |ps|
      invariant loX == LowBound(ps[..i], 0) && hiX == HighBound(ps[..i], 0)
      invariant loY == LowBound(ps[..i], 1) && hiY == HighBound(ps[..i], 1)
      invariant loZ == LowBound(ps[..i], 2) && hiZ == HighBound(ps[..i], 2)
    {
      BoundsStep(ps, i, 0);
      BoundsStep(ps, i, 1);
      BoundsStep(ps, i, 2);
      loX, hiX := Lower(loX, ps[i].x), Upper(hiX, ps[i].x);
      loY, hiY := Lower(loY, ps[i].y), Upper(hiY, ps[i].y);
      loZ, hiZ := Lower(loZ, ps[i].z), Upper(hiZ, ps[i].z);
    }
    assert ps[..|ps|] == ps;
    if ps == [] {
      h := NonFinite;
    } else {
      h := Finite(Vec3(Span(loX.r, hiX.r, scale.x), Span(loY.r, hiY.r, scale.y), Span(loZ.r, hiZ.r, scale.z)));
    }
  }

  // ---------------------------------------------------------------------
  // Extraction

  /** The record the exporter produces for an object, stated through the
      reference definitions above. */
  function ExtractSpec(obj: SceneObject): Extraction {
    if obj.kind != Mesh then NotMesh
    else if !ValidCorners(obj.mesh) then Failed
    else
      var m := obj.mesh;
      var d := FirstSeen(AllKeys(m));
      Extracted(MeshAsset(obj.name, VertexBuffer(d), IndexBufferUpTo(m, |m.faces|, d),
                          obj.position, obj.rotation, obj.scale,
                          HalfExtents(m.positions, obj.scale)))
  }

  /** The dedup map agrees with the list of distinct keys: each key maps to
      the float offset of its vertex. */
  ghost predicate MapMatches(vertexMap: map<VertexKey, nat>, d: seq<VertexKey>) {
    && (forall k :: k in vertexMap <==> k in d)
    && (forall k :: k in vertexMap ==> vertexMap[k] == FloatsPerVertex * Slot(d, k))
  }

  lemma FaceSlotsSnoc(d: seq<VertexKey>, keys: seq<VertexKey>, key: VertexKey)
    requires forall k :: k in keys + [key] ==> k in d
    ensures FaceSlots(d, keys + [key]) == FaceSlots(d, keys) + [FloatsPerVertex * Slot(d, key)]
  {
    assert (keys + [key])[..|keys|] == keys;
  }

  /** A key seen for the first time gets the current float count as offset. */
  lemma MapMatchesNew(vertexMap: map<VertexKey, nat>, d: seq<VertexKey>, key: VertexKey)
    requires MapMatches(vertexMap, d) && key !in d
    ensures MapMatches(vertexMap[key := FloatsPerVertex * |d|], d + [key])
  {
    var vm := vertexMap[key := FloatsPerVertex * |d|];
    forall k | k in vm ensures vm[k] == FloatsPerVertex * Slot(d + [key], k) {
      if k != key {
        SlotStable(d, [key], k);
      } else {
        assert (d + [key])[|d|] == key;
      }
    }
  }

  lemma VertexBufferSnoc(d: seq<VertexKey>, key: VertexKey)
    ensures VertexBuffer(d + [key]) == VertexBuffer(d) + VertexFloats(key)
  {
    assert (d + [key])[..|d + [key]| - 1] == d;
  }

  /** One corner: look its key up and, on first sight, append the key's
      eight floats and record the current float count as its offset. */
  method ResolveCorner(key: VertexKey, vertexMap0: map<VertexKey, nat>, vertices0: seq<real>,
                       ghost d0: seq<VertexKey>)
    returns (idx: nat, vertexMap: map<VertexKey, nat>, vertices: seq<real>, ghost d: seq<VertexKey>)
    requires MapMatches(vertexMap0, d0) && vertices0 == VertexBuffer(d0)
    ensures d == if key in d0 then d0 else d0 + [key]
    ensures MapMatches(vertexMap, d) && vertices == VertexBuffer(d)
    ensures key in d && idx == FloatsPerVertex * Slot(d, key)
  {
    if key !in vertexMap0 {
      idx := |vertices0|;
      MapMatchesNew(vertexMap0, d0, key);
      VertexBufferSnoc(d0, key);
      vertexMap := vertexMap0[key := idx];
      vertices := vertices0 + VertexFloats(key);
      d := d0 + [key];
    } else {
      idx := vertexMap0[key];
      vertexMap, vertices, d := vertexMap0, vertices0, d0;
    }
  }

  /** The inner loop over the corners of one face: resolve each corner in
      order and collect the face's indices. */
  method ResolveFace(m: SourceMesh, face: seq<LoopRec>, vertexMap0: map<VertexKey, nat>,
                     vertices0: seq<real>, ghost seen: seq<VertexKey>)
    returns (ok: bool, faceVerts: seq<nat>, vertexMap: map<VertexKey, nat>, vertices: seq<real>)
    requires MapMatches(vertexMap0, FirstSeen(seen))
    requires vertices0 == VertexBuffer(FirstSeen(seen))
    ensures ok <==> ValidFace(m, face)
    ensures ok ==>
      var d := FirstSeen(seen + FaceKeys(m, face));
      && MapMatches(vertexMap, d)
      && vertices == VertexBuffer(d)
      && faceVerts == FaceSlots(d, FaceKeys(m, face))
  {
    vertexMap, vertices, faceVerts := vertexMap0, vertices0, [];
    ghost var keys: seq<VertexKey> := [];
    ghost var d := FirstSeen(seen);
    assert seen + keys == seen;
    for l := 0 to |face|
      invariant ValidFace(m, face[..l])
      invariant keys == FaceKeys(m, face[..l])
      invariant d == FirstSeen(seen + keys)
      invariant MapMatches(vertexMap, d)
      invariant vertices == VertexBuffer(d)
      invariant faceVerts == FaceSlots(d, keys)
    {
      var c := face[l];
      if c.vertexIndex >= |m.positions| {
        assert !ValidFace(m, face);
        return false, faceVerts, vertexMap, vertices;
      }
      FaceKeysStep(m, face, l);
      var key := CornerKey(m, c);
      ghost var d0 := d;
      var idx;
      idx, vertexMap, vertices, d := ResolveCorner(key, vertexMap, vertices, d);
      CornerStep(seen, keys, key, d0, d);
      faceVerts := faceVerts + [idx];
      keys := keys + [key];
    }
    assert face[..|face|] == face;
    ok := true;
  }

  lemma FaceKeysStep(m: SourceMesh, face: seq<LoopRec>, l: nat)
    requires l < |face| && ValidFace(m, face[..l]) && face[l].vertexIndex < |m.positions|
    ensures ValidFace(m, face[..l + 1])
    ensures FaceKeys(m, face[..l + 1]) == FaceKeys(m, face[..l]) + [CornerKey(m, face[l])]
  {
    assert face[..l + 1][..l] == face[..l];
  }

  /** The bookkeeping of one corner step: the grown key list's distinct keys
      are `d`, and the offsets already collected are unchanged in `d`. */
  lemma CornerStep(seen: seq<VertexKey>, keys: seq<VertexKey>, key: VertexKey,
                   d0: seq<VertexKey>, d: seq<VertexKey>)
    requires d0 == FirstSeen(seen + keys)
    requires d == if key in d0 then d0 else d0 + [key]
    ensures d == FirstSeen(seen + (keys + [key]))
    ensures FaceSlots(d, keys + [key]) == FaceSlots(d0, keys) + [FloatsPerVertex * Slot(d, key)]
  {
    assert seen + (keys + [key]) == (seen + keys) + [key];
    FirstSeenSnoc(seen + keys, key);
    assert d0 <= d;
    FaceSlotsStable(d0, d[|d0|..], keys);
    assert d0 + d[|d0|..] == d;
    FaceSlotsSnoc(d, keys, key);
  }

  /** Extracts one object.  A non-mesh object yields no record; a corner that
      names a missing vertex fails the object; otherwise the record holds the
      deduplicated vertex buffer, the fan-triangulated index buffer, the
      decomposed transform unchanged and the collider half-extents. */
  method ExtractMeshData(obj: SceneObject) returns (r: Extraction)
    ensures r == ExtractSpec(obj)
  {
    if obj.kind != Mesh {
      return NotMesh;
    }
    var m := obj.mesh;
    var vertices: seq<real> := [];
    var indices: seq<nat> := [];
    var vertexMap: map<VertexKey, nat> := map[];
    for f := 0 to |m.faces|
      invariant ValidUpTo(m, f)
      invariant MapMatches(vertexMap, FirstSeen(KeysUpTo(m, f)))
      invariant vertices == VertexBuffer(FirstSeen(KeysUpTo(m, f)))
      invariant indices == IndexBufferUpTo(m, f, FirstSeen(KeysUpTo(m, f)))
    {
      var ok, faceVerts, vertexMap', vertices' := ResolveFace(m, m.faces[f], vertexMap, vertices, KeysUpTo(m, f));
      if !ok {
        assert !ValidCorners(m) by {
          var l :| 0 <= l < |m.faces[f]| && m.faces[f][l].vertexIndex >= |m.positions|;
        }
        return Failed;
      }
      assert ValidUpTo(m, f + 1);
      var tris := TriangulateFace(faceVerts);
      IndexBufferStep(m, f);
      indices := indices + tris;
      vertexMap, vertices := vertexMap', vertices';
    }
    var half := BoundingHalfExtents(m.positions, obj.scale);
    r := Extracted(MeshAsset(obj.name, vertices, indices, obj.position, obj.rotation, obj.scale, half));
  }

  // ---------------------------------------------------------------------
  // Properties of the extracted record

  /** Every element is a multiple of eight below eight times `count`: the
      float offset of one of `count` vertices. */
  predicate FloatOffsets(xs: seq<nat>, count: nat) {
    forall x :: x in xs ==> x % FloatsPerVertex == 0 && x < FloatsPerVertex * count
  }

  lemma FanOffsets(fs: seq<nat>, count: nat)
    requires FloatOffsets(fs, count)
    ensures FloatOffsets(Fan(fs), count) && |Fan(fs)| % 3 == 0
  {
    FanShape(fs);
    if |fs| >= 3 {
      FanMembers(fs, |fs| - 2);
    }
  }

  lemma OffsetsAppend(a: seq<nat>, b: seq<nat>, count: nat)
    requires FloatOffsets(a, count) && FloatOffsets(b, count)
    requires |a| % 3 == 0 && |b| % 3 == 0
    ensures FloatOffsets(a + b, count) && |a + b| % 3 == 0
  {
    forall x | x in a + b ensures x % FloatsPerVertex == 0 && x < FloatsPerVertex * count {
      if x !in a {
        assert x in b;
      }
    }
  }

  lemma {:induction false} IndexBufferBounded(m: SourceMesh, n: nat, d: seq<VertexKey>)
    requires n <= |m.faces| && ValidUpTo(m, n)
    requires forall k :: k in KeysUpTo(m, n) ==> k in d
    ensures FloatOffsets(IndexBufferUpTo(m, n, d), |d|)
    ensures |IndexBufferUpTo(m, n, d)| % 3 == 0
  {
    if n > 0 {
      KeysUpToStep(m, n, d);
      IndexBufferBounded(m, n - 1, d);
      var fs := FaceSlots(d, FaceKeys(m, m.faces[n - 1]));
      FanOffsets(fs, |d|);
      OffsetsAppend(IndexBufferUpTo(m, n - 1, d), Fan(fs), |d|);
    }
  }

  /** Every index is a multiple of eight and below the float count (indices
      address floats, not vertices), and the index buffer holds whole
      triangles; the float buffer holds eight floats per distinct key. */
  lemma IndicesAreFloatOffsets(obj: SceneObject, a: MeshAsset)
    requires ExtractSpec(obj) == Extracted(a)
    ensures |a.vertices| == FloatsPerVertex * |FirstSeen(AllKeys(obj.mesh))|
    ensures |a.indices| % 3 == 0
    ensures forall i :: 0 <= i < |a.indices| ==>
      a.indices[i] % FloatsPerVertex == 0 && a.indices[i] < |a.vertices|
  {
    var m := obj.mesh;
    var d := FirstSeen(AllKeys(m));
    assert a.indices == IndexBufferUpTo(m, |m.faces|, d);
    IndexBufferBounded(m, |m.faces|, d);
    forall i | 0 <= i < |a.indices|
      ensures a.indices[i] % FloatsPerVertex == 0 && a.indices[i] < |a.vertices|
    {
      assert a.indices[i] in IndexBufferUpTo(m, |m.faces|, d);
    }
  }

  /** As written, the index stored for the last distinct vertex is eight
      times its vertex number; the engine reads indices as vertex numbers,
      and with two or more vertices that one is past the vertex count. */
  lemma LastOffsetPastVertices(ks: seq<VertexKey>)
    requires |FirstSeen(ks)| >= 2
    ensures var d := FirstSeen(ks);
      FloatsPerVertex * Slot(d, d[|d| - 1]) >= |d|
  {
    var d := FirstSeen(ks);
    FirstSeenNoDup(ks);
    var i := Slot(d, d[|d| - 1]);
    assert i == |d| - 1;
  }

  // ---------------------------------------------------------------------
  // Corrected index buffer: vertex numbers instead of float offsets

  /** The intended index of each corner: the vertex number of its key, that
      is the key's position among the distinct keys. */
  function FaceOrdinals(d: seq<VertexKey>, fk: seq<VertexKey>): (r: seq<nat>)
    requires forall k :: k in fk ==> k in d
    ensures |r| == |fk|
    ensures forall i :: 0 <= i < |fk| ==> r[i] < |d| && d[r[i]] == fk[i]
  {
    if fk == [] then []
    else
      var init := fk[..|fk| - 1];
      assert forall i :: 0 <= i < |init| ==> init[i] == fk[i];
      FaceOrdinals(d, init) + [Slot(d, fk[|fk| - 1])]
  }

  /** The corrected index buffer of the first `n` faces. */
  function OrdinalIndexBufferUpTo(m: SourceMesh, n: nat, d: seq<VertexKey>): seq<nat>
    requires n <= |m.faces| && ValidUpTo(m, n)
    requires forall k :: k in KeysUpTo(m, n) ==> k in d
  {
    if n == 0 then []
    else OrdinalIndexBufferUpTo(m, n - 1, d) + Fan(FaceOrdinals(d, FaceKeys(m, m.faces[n - 1])))
  }

  /** A corner's corrected index addresses the eight floats of the
      corner's own key in the vertex buffer. */
  lemma CornerAddressesItsKey(d: seq<VertexKey>, fk: seq<VertexKey>, i: nat)
    requires forall k :: k in fk ==> k in d
    requires i < |fk|
    ensures var o := FaceOrdinals(d, fk)[i];
      FloatsPerVertex * o + FloatsPerVertex <= |VertexBuffer(d)| &&
      VertexBuffer(d)[FloatsPerVertex * o .. FloatsPerVertex * o + FloatsPerVertex] == VertexFloats(fk[i])
  {
    VertexSlice(d, FaceOrdinals(d, fk)[i]);
  }

  /** Every element is below `count` and the length is whole triangles. */
  predicate Triangles(xs: seq<nat>, count: nat) {
    |xs| % 3 == 0 && forall x :: x in xs ==> x < count
  }

  lemma TrianglesAppend(a: seq<nat>, b: seq<nat>, count: nat)
    requires Triangles(a, count) && Triangles(b, count)
    ensures Triangles(a + b, count)
  {
    forall x | x in a + b ensures x < count {
      if x !in a {
        assert x in b;
      }
    }
  }

  lemma FanOrdinals(os: seq<nat>, count: nat)
    requires forall x :: x in os ==> x < count
    ensures Triangles(Fan(os), count)
  {
    FanShape(os);
    if |os| >= 3 {
      FanMembers(os, |os| - 2);
    }
  }

  /** With vertex numbers as indices every index names an existing vertex,
      and the index buffer holds whole triangles. */
  lemma {:induction false} OrdinalIndicesInRange(m: SourceMesh, n: nat, d: seq<VertexKey>)
    requires n <= |m.faces| && ValidUpTo(m, n)
    requires forall k :: k in KeysUpTo(m, n) ==> k in d
    ensures Triangles(OrdinalIndexBufferUpTo(m, n, d), |d|)
  {
    if n > 0 {
      KeysUpToStep(m, n, d);
      OrdinalIndicesInRange(m, n - 1, d);
      var os := FaceOrdinals(d, FaceKeys(m, m.faces[n - 1]));
      assert forall x :: x in os ==> x < |d|;
      FanOrdinals(os, |d|);
      TrianglesAppend(OrdinalIndexBufferUpTo(m, n - 1, d), Fan(os), |d|);
    }
  }

  /** For an exported mesh, every corrected index names one of the stored
      vertices, and the corrected buffer holds whole triangles. */
  lemma CorrectedIndicesAddressVertices(obj: SceneObject, a: MeshAsset)
    requires ExtractSpec(obj) == Extracted(a)
    ensures var m := obj.mesh;
      var os := OrdinalIndexBufferUpTo(m, |m.faces|, FirstSeen(AllKeys(m)));
      && |os| % 3 == 0
      && forall i :: 0 <= i < |os| ==> FloatsPerVertex * os[i] + FloatsPerVertex <= |a.vertices|
  {
    var m := obj.mesh;
    var d := FirstSeen(AllKeys(m));
    assert a.vertices == VertexBuffer(d);
    OrdinalIndicesInRange(m, |m.faces|, d);
    var os := OrdinalIndexBufferUpTo(m, |m.faces|, d);
    forall i | 0 <= i < |os| ensures FloatsPerVertex * os[i] + FloatsPerVertex <= |a.vertices| {
      assert os[i] in os;
    }
  }

  /** Equal keys share one offset and different keys get different ones. */
  lemma SlotsSeparateKeys(ks: seq<VertexKey>, k1: VertexKey, k2: VertexKey)
    requires k1 in ks && k2 in ks
    ensures var d := FirstSeen(ks);
      (FloatsPerVertex * Slot(d, k1) == FloatsPerVertex * Slot(d, k2)) <==> k1 == k2
  {
    var d := FirstSeen(ks);
    if Slot(d, k1) == Slot(d, k2) {
      assert d[Slot(d, k1)] == k1 && d[Slot(d, k2)] == k2;
    }
  }

  /** Every vertex in the buffer is the unconverted key of some corner: its
      position, uv and normal are copied as they are. */
  lemma VerticesCopyCorners(obj: SceneObject, a: MeshAsset, i: nat)
    requires ExtractSpec(obj) == Extracted(a)
    requires FloatsPerVertex * i < |a.vertices|
    ensures FloatsPerVertex * i + FloatsPerVertex <= |a.vertices|
    ensures exists k :: k in AllKeys(obj.mesh) &&
                        a.vertices[FloatsPerVertex * i .. FloatsPerVertex * i + FloatsPerVertex] == VertexFloats(k)
  {
    var d := FirstSeen(AllKeys(obj.mesh));
    assert a.vertices == VertexBuffer(d);
    VertexSlice(d, i);
    assert d[i] in AllKeys(obj.mesh);
  }

  /** The eight floats of vertex `i` are its key's. */
  lemma VertexSlice(d: seq<VertexKey>, i: nat)
    requires i < |d|
    ensures VertexBuffer(d)[FloatsPerVertex * i .. FloatsPerVertex * i + FloatsPerVertex] == VertexFloats(d[i])
  {
    forall c | 0 <= c < FloatsPerVertex
      ensures VertexBuffer(d)[FloatsPerVertex * i + c] == VertexFloats(d[i])[c]
    {
      VertexBufferAt(d, i, c);
    }
  }

  lemma {:induction false} FaceKeysNoUv(m: SourceMesh, face: seq<LoopRec>)
    requires ValidFace(m, face) && !m.hasUvs
    ensures forall k :: k in FaceKeys(m, face) ==> k.uv == Vec2(0.0, 0.0)
  {
    if face != [] {
      assert ValidFace(m, face[..|face| - 1]);
      FaceKeysNoUv(m, face[..|face| - 1]);
    }
  }

  lemma {:induction false} KeysUpToNoUv(m: SourceMesh, n: nat)
    requires n <= |m.faces| && ValidUpTo(m, n) && !m.hasUvs
    ensures forall k :: k in KeysUpTo(m, n) ==> k.uv == Vec2(0.0, 0.0)
  {
    if n > 0 {
      assert ValidUpTo(m, n - 1);
      KeysUpToNoUv(m, n - 1);
      FaceKeysNoUv(m, m.faces[n - 1]);
    }
  }

  lemma NoUvBuffer(m: SourceMesh, i: nat)
    requires ValidCorners(m) && !m.hasUvs
    requires i < |FirstSeen(AllKeys(m))|
    ensures FloatsPerVertex * i + 4 < |VertexBuffer(FirstSeen(AllKeys(m)))|
    ensures VertexBuffer(FirstSeen(AllKeys(m)))[FloatsPerVertex * i + 3] == 0.0
    ensures VertexBuffer(FirstSeen(AllKeys(m)))[FloatsPerVertex * i + 4] == 0.0
  {
    var d := FirstSeen(AllKeys(m));
    KeysUpToNoUv(m, |m.faces|);
    assert d[i] in AllKeys(m);
    VertexBufferAt(d, i, 3);
    VertexBufferAt(d, i, 4);
  }

  /** Without an active UV layer every vertex gets uv = (0, 0). */
  lemma NoUvLayerGivesZeroUv(obj: SceneObject, a: MeshAsset, i: nat)
    requires ExtractSpec(obj) == Extracted(a) && !obj.mesh.hasUvs
    requires FloatsPerVertex * i < |a.vertices|
    ensures FloatsPerVertex * i + 4 < |a.vertices|
    ensures a.vertices[FloatsPerVertex * i + 3] == 0.0 && a.vertices[FloatsPerVertex * i + 4] == 0.0
  {
    assert a.vertices == VertexBuffer(FirstSeen(AllKeys(obj.mesh)));
    NoUvBuffer(obj.mesh, i);
  }

  // ---------------------------------------------------------------------
  // The main script

  /** The scene's mesh objects, in scene order. */
  function MeshObjects(objs: seq<SceneObject>): (r: seq<SceneObject>)
    ensures |r| <= |objs|
  {
    if objs == [] then []
    else (if objs[0].kind == Mesh then [objs[0]] else []) + MeshObjects(objs[1..])
  }

  /** Exactly the mesh objects of the scene are kept. */
  lemma {:induction false} MeshObjectsFilter(objs: seq<SceneObject>)
    ensures forall o :: o in MeshObjects(objs) <==> o in objs && o.kind == Mesh
  {
    if objs != [] {
      MeshObjectsFilter(objs[1..]);
      assert objs == [objs[0]] + objs[1..];
    }
  }

  /** The records of the objects that extract successfully, in scene order. */
  function Successes(objs: seq<SceneObject>): (r: seq<MeshAsset>)
    ensures |r| <= |objs|
  {
    if objs == [] then []
    else
      var rest := Successes(objs[..|objs| - 1]);
      var e := ExtractSpec(objs[|objs| - 1]);
      if e.Extracted? then rest + [e.asset] else rest
  }

  /** The extraction loop: each object is extracted in turn; a success is
      appended to the records and a failure counted. */
  method ExtractAll(meshObjects: seq<SceneObject>) returns (objectsData: seq<MeshAsset>, failedCount: nat)
    ensures objectsData == Successes(meshObjects)
    ensures failedCount == |meshObjects| - |objectsData|
  {
    objectsData, failedCount := [], 0;
    for i := 0 to |meshObjects|
      invariant objectsData == Successes(meshObjects[..i])
      invariant failedCount == i - |objectsData|
    {
      var r := ExtractMeshData(meshObjects[i]);
      SuccessesSnoc(meshObjects, i, r);
      if r.Extracted? {
        objectsData := objectsData + [r.asset];
      } else {
        failedCount := failedCount + 1;
      }
    }
    assert meshObjects[..|meshObjects|] == meshObjects;
  }

  /** The script: a scene without mesh objects exports nothing; otherwise each
      mesh object is extracted, a failing one counted and left out, and the
      document {version: 1, objects} is written only when at least one object
      succeeded. */
  method ExportScene(objects: seq<SceneObject>) returns (outcome: ExportOutcome)
    ensures var meshes := MeshObjects(objects);
      outcome == if meshes == [] then NoMeshObjects
                 else if Successes(meshes) == [] then NothingExported(|meshes|)
                 else Written(SceneDocument(DocumentVersion, Successes(meshes)),
                              |meshes| - |Successes(meshes)|)
  {
    var meshObjects := MeshObjects(objects);
    if meshObjects == [] {
      return NoMeshObjects;
    }
    var objectsData, failedCount := ExtractAll(meshObjects);
    if objectsData != [] {
      outcome := Written(SceneDocument(DocumentVersion, objectsData), failedCount);
    } else {
      outcome := NothingExported(failedCount);
    }
  }

  lemma SuccessesSnoc(objs: seq<SceneObject>, i: nat, r: Extraction)
    requires i < |objs| && r == ExtractSpec(objs[i])
    ensures Successes(objs[..i + 1]) == if r.Extracted? then Successes(objs[..i]) + [r.asset] else Successes(objs[..i])
  {
    assert objs[..i + 1][..i] == objs[..i];
  }

  /** Every exported record is the extraction of one of the given objects. */
  lemma {:induction false} SuccessesAreExtractions(objs: seq<SceneObject>, i: nat)
    requires i < |Successes(objs)|
    ensures exists j :: 0 <= j < |objs| && ExtractSpec(objs[j]) == Extracted(Successes(objs)[i])
  {
    var prefix := objs[..|objs| - 1];
    if i < |Successes(prefix)| {
      SuccessesAreExtractions(prefix, i);
      var j :| 0 <= j < |prefix| && ExtractSpec(prefix[j]) == Extracted(Successes(prefix)[i]);
      assert objs[j] == prefix[j];
    } else {
      assert ExtractSpec(objs[|objs| - 1]) == Extracted(Successes(objs)[i]);
    }
  }
}

/** The box-level exporter (resources/export_map.py): world matrices are moved
    from Blender's axes (x right, y forward, z up) to the engine's axes
    (x right, y up, z forward) by conjugation with a fixed signed permutation
    matrix, and every mesh object of the geometry collection becomes one
    "box" record. */
module Basis {
  import opened Common

  /** A 4x4 matrix, entry `mRC` in row R, column C. */
  datatype Mat4 = Mat4(
    m00: real, m01: real, m02: real, m03: real,
    m10: real, m11: real, m12: real, m13: real,
    m20: real, m21: real, m22: real, m23: real,
    m30: real, m31: real, m32: real, m33: real)

  /** A homogeneous column (x, y, z, w). */
  datatype Vec4 = Vec4(x: real, y: real, z: real, w: real)

  const Identity: Mat4 := Mat4(1.0, 0.0, 0.0, 0.0,  0.0, 1.0, 0.0, 0.0,  0.0, 0.0, 1.0, 0.0,  0.0, 0.0, 0.0, 1.0)

  /** The conversion matrix B: (x, y, z)_blender -> (x, z, -y)_engine. */
  const Conversion: Mat4 := Mat4(1.0, 0.0, 0.0, 0.0,  0.0, 0.0, 1.0, 0.0,  0.0, -1.0, 0.0, 0.0,  0.0, 0.0, 0.0, 1.0)

  /** The inverse of the conversion matrix, as `inverted()` yields it. */
  const ConversionInv: Mat4 := Mat4(1.0, 0.0, 0.0, 0.0,  0.0, 0.0, -1.0, 0.0,  0.0, 1.0, 0.0, 0.0,  0.0, 0.0, 0.0, 1.0)

  /** The matrix product `a @ b`. */
  function MatMul(a: Mat4, b: Mat4): Mat4 {
    Mat4(
      a.m00 * b.m00 + a.m01 * b.m10 + a.m02 * b.m20 + a.m03 * b.m30,
      a.m00 * b.m01 + a.m01 * b.m11 + a.m02 * b.m21 + a.m03 * b.m31,
      a.m00 * b.m02 + a.m01 * b.m12 + a.m02 * b.m22 + a.m03 * b.m32,
      a.m00 * b.m03 + a.m01 * b.m13 + a.m02 * b.m23 + a.m03 * b.m33,
      a.m10 * b.m00 + a.m11 * b.m10 + a.m12 * b.m20 + a.m13 * b.m30,
      a.m10 * b.m01 + a.m11 * b.m11 + a.m12 * b.m21 + a.m13 * b.m31,
      a.m10 * b.m02 + a.m11 * b.m12 + a.m12 * b.m22 + a.m13 * b.m32,
      a.m10 * b.m03 + a.m11 * b.m13 + a.m12 * b.m23 + a.m13 * b.m33,
      a.m20 * b.m00 + a.m21 * b.m10 + a.m22 * b.m20 + a.m23 * b.m30,
      a.m20 * b.m01 + a.m21 * b.m11 + a.m22 * b.m21 + a.m23 * b.m31,
      a.m20 * b.m02 + a.m21 * b.m12 + a.m22 * b.m22 + a.m23 * b.m32,
      a.m20 * b.m03 + a.m21 * b.m13 + a.m22 * b.m23 + a.m23 * b.m33,
      a.m30 * b.m00 + a.m31 * b.m10 + a.m32 * b.m20 + a.m33 * b.m30,
      a.m30 * b.m01 + a.m31 * b.m11 + a.m32 * b.m21 + a.m33 * b.m31,
      a.m30 * b.m02 + a.m31 * b.m12 + a.m32 * b.m22 + a.m33 * b.m32,
      a.m30 * b.m03 + a.m31 * b.m13 + a.m32 * b.m23 + a.m33 * b.m33)
  }

  function Transpose(a: Mat4): Mat4 {
    Mat4(a.m00, a.m10, a.m20, a.m30,
         a.m01, a.m11, a.m21, a.m31,
         a.m02, a.m12, a.m22, a.m32,
         a.m03, a.m13, a.m23, a.m33)
  }

  /** The determinant of the upper-left 3x3 block. */
  function Determinant3(a: Mat4): real {
    a.m00 * (a.m11 * a.m22 - a.m12 * a.m21)
    - a.m01 * (a.m10 * a.m22 - a.m12 * a.m20)
    + a.m02 * (a.m10 * a.m21 - a.m11 * a.m20)
  }

  /** Applying a matrix to a homogeneous column. */
  function Apply(a: Mat4, v: Vec4): Vec4 {
    Vec4(a.m00 * v.x + a.m01 * v.y + a.m02 * v.z + a.m03 * v.w,
         a.m10 * v.x + a.m11 * v.y + a.m12 * v.z + a.m13 * v.w,
         a.m20 * v.x + a.m21 * v.y + a.m22 * v.z + a.m23 * v.w,
         a.m30 * v.x + a.m31 * v.y + a.m32 * v.z + a.m33 * v.w)
  }

  /** The conversion matrix sends (x, y, z, 1) to (x, z, -y, 1). */
  lemma ConversionMapsAxes(x: real, y: real, z: real)
    ensures Apply(Conversion, Vec4(x, y, z, 1.0)) == Vec4(x, z, -y, 1.0)
  {
  }

  /** The stored inverse is a two-sided inverse, and it is the transpose: the
      conversion is a rotation (orthogonal, determinant +1). */
  lemma ConversionInverse()
    ensures MatMul(Conversion, ConversionInv) == Identity
    ensures MatMul(ConversionInv, Conversion) == Identity
    ensures ConversionInv == Transpose(Conversion)
    ensures Determinant3(Conversion) == 1.0
  {
  }

  /** Moves a Blender world matrix into engine space: `B @ M @ B^-1`. */
  function ToEngineSpace(m: Mat4): Mat4 {
    MatMul(MatMul(Conversion, m), ConversionInv)
  }

  /** The conversion written out entry by entry: rows and columns 1 and 2
      are exchanged, and an entry changes sign when exactly one of its row
      and column is the new z axis. */
  function Permuted(m: Mat4): Mat4 {
    Mat4( m.m00,  m.m02, -m.m01,  m.m03,
          m.m20,  m.m22, -m.m21,  m.m23,
         -m.m10, -m.m12,  m.m11, -m.m13,
          m.m30,  m.m32, -m.m31,  m.m33)
  }

  lemma ToEngineSpaceIsPermuted(m: Mat4)
    ensures ToEngineSpace(m) == Permuted(m)
  {
  }

  /** Conversion keeps the identity. */
  lemma ToEngineSpaceIdentity()
    ensures ToEngineSpace(Identity) == Identity
  {
    ToEngineSpaceIsPermuted(Identity);
  }

  lemma PermutedMulRow0(a: Mat4, b: Mat4)
    ensures Permuted(MatMul(a, b)).m00 == MatMul(Permuted(a), Permuted(b)).m00
    ensures Permuted(MatMul(a, b)).m01 == MatMul(Permuted(a), Permuted(b)).m01
    ensures Permuted(MatMul(a, b)).m02 == MatMul(Permuted(a), Permuted(b)).m02
    ensures Permuted(MatMul(a, b)).m03 == MatMul(Permuted(a), Permuted(b)).m03
  {
  }

  lemma PermutedMulRow1(a: Mat4, b: Mat4)
    ensures Permuted(MatMul(a, b)).m10 == MatMul(Permuted(a), Permuted(b)).m10
    ensures Permuted(MatMul(a, b)).m11 == MatMul(Permuted(a), Permuted(b)).m11
    ensures Permuted(MatMul(a, b)).m12 == MatMul(Permuted(a), Permuted(b)).m12
    ensures Permuted(MatMul(a, b)).m13 == MatMul(Permuted(a), Permuted(b)).m13
  {
  }

  lemma PermutedMulRow2(a: Mat4, b: Mat4)
    ensures Permuted(MatMul(a, b)).m20 == MatMul(Permuted(a), Permuted(b)).m20
    ensures Permuted(MatMul(a, b)).m21 == MatMul(Permuted(a), Permuted(b)).m21
    ensures Permuted(MatMul(a, b)).m22 == MatMul(Permuted(a), Permuted(b)).m22
    ensures Permuted(MatMul(a, b)).m23 == MatMul(Permuted(a), Permuted(b)).m23
  {
  }

  lemma PermutedMulRow3(a: Mat4, b: Mat4)
    ensures Permuted(MatMul(a, b)).m30 == MatMul(Permuted(a), Permuted(b)).m30
    ensures Permuted(MatMul(a, b)).m31 == MatMul(Permuted(a), Permuted(b)).m31
    ensures Permuted(MatMul(a, b)).m32 == MatMul(Permuted(a), Permuted(b)).m32
    ensures Permuted(MatMul(a, b)).m33 == MatMul(Permuted(a), Permuted(b)).m33
  {
  }

  /** Conversion preserves products: converting a composed transform gives
      the composition of the converted transforms. */
  lemma ToEngineSpaceMul(a: Mat4, b: Mat4)
    ensures ToEngineSpace(MatMul(a, b)) == MatMul(ToEngineSpace(a), ToEngineSpace(b))
  {
    ToEngineSpaceIsPermuted(a);
    ToEngineSpaceIsPermuted(b);
    ToEngineSpaceIsPermuted(MatMul(a, b));
    PermutedMulRow0(a, b);
    PermutedMulRow1(a, b);
    PermutedMulRow2(a, b);
    PermutedMulRow3(a, b);
  }

  /** An affine transform: bottom row (0, 0, 0, 1). */
  predicate Affine(m: Mat4) {
    m.m30 == 0.0 && m.m31 == 0.0 && m.m32 == 0.0 && m.m33 == 1.0
  }

  /** The translation part, as `to_translation` reads it. */
  function Translation(m: Mat4): Vec3 {
    Vec3(m.m03, m.m13, m.m23)
  }

  /** The converted matrix is again affine and its translation is the
      original one with the axes exchanged: (tx, tz, -ty). */
  lemma TranslationConverted(m: Mat4)
    requires Affine(m)
    ensures Affine(ToEngineSpace(m))
    ensures Translation(ToEngineSpace(m)) == Vec3(m.m03, m.m23, -m.m13)
  {
    ToEngineSpaceIsPermuted(m);
  }

  // ---------------------------------------------------------------------
  // Box records

  /** The world-space size as exported: y and z exchanged, no sign change. */
  function SizeOf(dims: Vec3): (r: Vec3)
  {
    Vec3(dims.x, dims.z, dims.y)
  }

  /** Exchanging y and z twice gives the original dimensions back, and for
      non-negative dimensions the size is the converted extent without its
      sign. */
  lemma SizeOfProperties(dims: Vec3)
    ensures SizeOf(SizeOf(dims)) == dims
    ensures dims.x >= 0.0 && dims.y >= 0.0 && dims.z >= 0.0 ==>
      var e := Apply(Conversion, Vec4(dims.x, dims.y, dims.z, 1.0));
      SizeOf(dims) == Vec3(Abs(e.x), Abs(e.y), Abs(e.z))
  {
  }

  datatype BlenderObject = BlenderObject(name: string, isMesh: bool, matrixWorld: Mat4, dimensions: Vec3)

  datatype BoxRecord = BoxRecord(name: string, kind: string, position: seq<real>, rotation: seq<real>, size: seq<real>)

  datatype LevelDocument = LevelDocument(version: int, axisSystem: string, objects: seq<BoxRecord>)

  /** The effects the exporter has on the file system, in order. */
  datatype Effect = MakeOutputDir | WriteOutput(doc: LevelDocument)

  datatype LevelOutcome = CollectionMissing | Exported(doc: LevelDocument)

  const GeometryCollection: string := "Geometry"
  const AxisSystem: string := "x_right_y_up_z_forward"
  const BoxType: string := "box"

  /** A vector as the list [x, y, z]. */
  function Vec3ToList(v: Vec3): seq<real>
  {
    [v.x, v.y, v.z]
  }

  /** A quaternion as the list [w, x, y, z]. */
  function QuatToList(q: Quat): seq<real>
  {
    [q.w, q.x, q.y, q.z]
  }

  /** The record of one mesh object.  The rotation extraction is a numeric
      routine of the host, passed in as `toQuaternion`. */
  function BoxOf(obj: BlenderObject, toQuaternion: Mat4 -> Quat): BoxRecord {
    var engine := ToEngineSpace(obj.matrixWorld);
    BoxRecord(obj.name, BoxType, Vec3ToList(Translation(engine)),
              QuatToList(toQuaternion(engine)), Vec3ToList(SizeOf(obj.dimensions)))
  }

  /** The records of the mesh objects, in collection order. */
  function Boxes(objs: seq<BlenderObject>, toQuaternion: Mat4 -> Quat): (r: seq<BoxRecord>)
    ensures |r| <= |objs|
    ensures |r| == |MeshIndices(objs)|
  {
    if objs == [] then []
    else
      MeshIndicesSnoc(objs);
      var rest := Boxes(objs[..|objs| - 1], toQuaternion);
      var o := objs[|objs| - 1];
      if o.isMesh then rest + [BoxOf(o, toQuaternion)] else rest
  }

  /** Every record is a "box" for a mesh object of the collection, carrying
      the converted translation (tx, tz, -ty) of an affine world matrix. */
  lemma {:induction false} BoxesFromMeshes(objs: seq<BlenderObject>, toQuaternion: Mat4 -> Quat, i: nat)
    requires i < |Boxes(objs, toQuaternion)|
    ensures exists j :: 0 <= j < |objs| && objs[j].isMesh &&
                        Boxes(objs, toQuaternion)[i] == BoxOf(objs[j], toQuaternion)
    ensures Boxes(objs, toQuaternion)[i].kind == BoxType
  {
    var prefix := objs[..|objs| - 1];
    if i < |Boxes(prefix, toQuaternion)| {
      BoxesFromMeshes(prefix, toQuaternion, i);
      var j :| 0 <= j < |prefix| && prefix[j].isMesh && Boxes(prefix, toQuaternion)[i] == BoxOf(prefix[j], toQuaternion);
      assert objs[j] == prefix[j];
    } else {
      assert Boxes(objs, toQuaternion)[i] == BoxOf(objs[|objs| - 1], toQuaternion);
    }
  }

  /** The positions of the mesh objects in a collection. */
  function MeshIndices(objs: seq<BlenderObject>): set<nat> {
    set j: nat | j < |objs| && objs[j].isMesh
  }

  lemma MeshIndicesSnoc(objs: seq<BlenderObject>)
    requires objs != []
    ensures var n := |objs| - 1;
      MeshIndices(objs) == if objs[n].isMesh then MeshIndices(objs[..n]) + {n} else MeshIndices(objs[..n])
    ensures |objs| - 1 !in MeshIndices(objs[..|objs| - 1])
  {
    var n := |objs| - 1;
    assert forall j :: 0 <= j < n ==> objs[..n][j] == objs[j];
  }

  /** The number of records is the number of mesh objects: nothing but
      non-mesh objects is skipped. */
  lemma {:induction false} BoxesCount(objs: seq<BlenderObject>, toQuaternion: Mat4 -> Quat)
    ensures |Boxes(objs, toQuaternion)| == |MeshIndices(objs)|
  {
    if objs != [] {
      BoxesCount(objs[..|objs| - 1], toQuaternion);
      MeshIndicesSnoc(objs);
    }
  }

  lemma BoxPosition(obj: BlenderObject, toQuaternion: Mat4 -> Quat)
    requires Affine(obj.matrixWorld)
    ensures var m := obj.matrixWorld;
      BoxOf(obj, toQuaternion).position == [m.m03, m.m23, -m.m13]
  {
    TranslationConverted(obj.matrixWorld);
  }

  /** The layout of a record: the object's name, the type `box`, the
      converted translation, the rotation of the converted matrix listed as
      [w, x, y, z], and the dimensions listed as [x, z, y]. */
  lemma BoxLayout(obj: BlenderObject, toQuaternion: Mat4 -> Quat)
    ensures var b := BoxOf(obj, toQuaternion);
      var q := toQuaternion(ToEngineSpace(obj.matrixWorld));
      var t := Translation(ToEngineSpace(obj.matrixWorld));
      && b.name == obj.name && b.kind == BoxType
      && b.position == [t.x, t.y, t.z]
      && b.rotation == [q.w, q.x, q.y, q.z]
      && b.size == [obj.dimensions.x, obj.dimensions.z, obj.dimensions.y]
  {
  }

  /** The exporter: the output directory is created first; a missing
      geometry collection then stops the export with nothing written;
      otherwise the mesh objects are converted in collection order and the
      document {version 1, axis system, objects} is written. */
  method ExportLevel(collections: map<string, seq<BlenderObject>>, toQuaternion: Mat4 -> Quat)
    returns (outcome: LevelOutcome, effects: seq<Effect>)
    ensures GeometryCollection !in collections ==> outcome == CollectionMissing && effects == [MakeOutputDir]
    ensures GeometryCollection in collections ==>
      var doc := LevelDocument(1, AxisSystem, Boxes(collections[GeometryCollection], toQuaternion));
      outcome == Exported(doc) && effects == [MakeOutputDir, WriteOutput(doc)]
  {
    effects := [MakeOutputDir];
    if GeometryCollection !in collections {
      return CollectionMissing, effects;
    }
    var objs := collections[GeometryCollection];
    var exported: seq<BoxRecord> := [];
    for i := 0 to |objs|
      invariant exported == Boxes(objs[..i], toQuaternion)
    {
      assert objs[..i + 1][..i] == objs[..i];
      if objs[i].isMesh {
        exported := exported + [BoxOf(objs[i], toQuaternion)];
      }
    }
    assert objs[..|objs|] == objs;
    var doc := LevelDocument(1, AxisSystem, exported);
    effects := effects + [WriteOutput(doc)];
    outcome := Exported(doc);
  }
}

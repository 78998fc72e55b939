/** The JSON map importer (managers/map_loader.cpp): a versioned document
    whose objects each become one node under a "MapRoot" node, with a mesh,
    an optional transform, the default material and an optional box
    collider.  JSON parsing and file access are outside the model: the
    loader receives the parsed document. */
module MapLoader {
  import opened Common

  /** A parsed JSON value. */
  datatype Json =
    | JNull
    | JBool(b: bool)
    | JNumber(n: real)
    | JString(s: string)
    | JArray(items: seq<Json>)
    | JObject(fields: map<string, Json>)

  /** `contains(key)`: only an object has members. */
  predicate Contains(j: Json, key: string) {
    j.JObject? && key in j.fields
  }

  function Member(j: Json, key: string): Json
    requires Contains(j, key)
  {
    j.fields[key]
  }

  /** nlohmann's arithmetic conversion accepts numbers and booleans. */
  predicate Arithmetic(j: Json) {
    j.JNumber? || j.JBool?
  }

  /** The value an arithmetic element converts to: a boolean becomes 0 or 1. */
  function ArithmeticValue(j: Json): real
    requires Arithmetic(j)
  {
    if j.JNumber? then j.n else if j.b then 1.0 else 0.0
  }

  predicate AllNumbers(items: seq<Json>) {
    forall i :: 0 <= i < |items| ==> Arithmetic(items[i])
  }

  /** `get<std::vector<float>>()`: the element values of an array, or nothing
      when the value is not an array or an element is neither a number nor a
      boolean (the library throws then). */
  function Numbers(j: Json): (r: Option<seq<real>>)
    ensures r.Some? <==> j.JArray? && AllNumbers(j.items)
    ensures r.Some? ==> |r.value| == |j.items| &&
                        forall i :: 0 <= i < |j.items| ==> r.value[i] == ArithmeticValue(j.items[i])
    ensures r.Some? ==> forall i :: 0 <= i < |j.items| && j.items[i].JBool? ==>
                          r.value[i] == (if j.items[i].b then 1.0 else 0.0)
  {
    if j.JArray? && AllNumbers(j.items) then
      Some(seq(|j.items|, i requires 0 <= i < |j.items| && Arithmetic(j.items[i]) => ArithmeticValue(j.items[i])))
    else None
  }

  /** An optional array member of at least `n` entries, as the loader tests
      it before reading: absent (not there, not an array or too short),
      malformed (long enough but not all numbers: reading it throws), or its
      numbers. */
  datatype Field = Absent | Malformed | Present(values: seq<real>)

  function ArrayField(obj: Json, key: string, n: nat): (f: Field)
    ensures f.Present? ==> |f.values| >= n
  {
    if !(Contains(obj, key) && Member(obj, key).JArray? && |Member(obj, key).items| >= n) then Absent
    else match Numbers(Member(obj, key))
      case None => Malformed
      case Some(vs) => Present(vs)
  }

  /** The first three numbers of an array field as a vector. */
  function Vec3Of(vs: seq<real>): Vec3
    requires |vs| >= 3
  {
    Vec3(vs[0], vs[1], vs[2])
  }

  /** The first four numbers of an array field as a quaternion, in
      (w, x, y, z) order. */
  function QuatOf(vs: seq<real>): Quat
    requires |vs| >= 4
  {
    Quat(vs[0], vs[1], vs[2], vs[3])
  }

  predicate Positive(v: Vec3) {
    v.x > 0.0 && v.y > 0.0 && v.z > 0.0
  }

  /** The value an `unsigned int` index receives from a float: truncation
      toward zero followed by reduction modulo 2^32.  C++ leaves the
      conversion of a value outside [0, 2^32) undefined; this is the result
      the usual x86-64 code produces, not a rule of the language. */
  function ToUint32(r: real): (u: nat)
    ensures u < 0x1_0000_0000
  {
    var t := if r >= 0.0 then r.Floor else -((-r).Floor);
    t % 0x1_0000_0000
  }

  /** Texture handles of a two-texture material; `None` is a null texture. */
  datatype Material = Material(albedo: Option<nat>, specular: Option<nat>)

  const NoMaterial: Material := Material(None, None)

  /** The state of one node built from a map object. */
  datatype MapNode = MapNode(
    name: string,
    vertices: seq<real>,
    indices: seq<nat>,
    position: Vec3,
    orientation: Quat,
    scale: Vec3,
    absolutePosition: Vec3,
    absoluteScale: Vec3,
    dirty: bool,
    subtreeDirty: bool,
    material: Option<Material>,
    collider: Option<Vec3>)

  /** Creating a node from one object: rejected before any node exists,
      abandoned after the node was created and attached (an exception while
      reading a transform or collider field), or completed. */
  datatype NodeOutcome = Rejected | Abandoned(node: MapNode) | Created(node: MapNode)

  /** The root's name, its children, and its transform's `subtreeDirty`
      flag, which the children's setters raise through `markAsDirty`. */
  datatype MapRoot = MapRoot(name: string, children: seq<MapNode>, subtreeDirty: bool)

  datatype LoadError = UnsupportedVersion | MissingObjects

  datatype Loaded = Loaded(root: MapRoot, loadedCount: nat)

  const MapRootName: string := "MapRoot"

  /** The root is never recalculated while the map loads, so its absolute
      position and scale keep the transform's defaults. */
  const RootAbsolutePosition: Vec3 := Zero3
  const RootAbsoluteScale: Vec3 := One3

  /** Mesh buffers are interleaved with 8 floats per vertex. */
  const VertexStride: nat := 8

  // ---------------------------------------------------------------------
  // Material prefixes

  /** The index of the last '_' in `s`. */
  function LastUnderscore(s: string): (r: Option<nat>)
    ensures r.None? <==> forall i :: 0 <= i < |s| ==> s[i] != '_'
    ensures r.Some? ==> r.value < |s| && s[r.value] == '_' &&
                        forall i :: r.value < i < |s| ==> s[i] != '_'
  {
    if s == [] then None
    else if s[|s| - 1] == '_' then Some(|s| - 1)
    else LastUnderscore(s[..|s| - 1])
  }

  /** The name up to and including its last '_', provided that '_' is not
      the first character; otherwise the empty string. */
  function ExtractPrefix(name: string): (r: string)
    ensures r == "" <==> forall i :: 0 < i < |name| ==> name[i] != '_'
    ensures r != "" ==>
      && 2 <= |r| <= |name|
      && r == name[..|r|]
      && r[|r| - 1] == '_'
      && forall i :: |r| <= i < |name| ==> name[i] != '_'
  {
    match LastUnderscore(name)
    case Some(i) => if i > 0 then name[..i + 1] else ""
    case None => ""
  }

  lemma ExtractPrefixExamples()
    ensures ExtractPrefix("C_w_001") == "C_w_"
    ensures ExtractPrefix("_001") == ""
    ensures ExtractPrefix("wall") == ""
  {
    assert LastUnderscore("C_w_001") == Some(3) by {
      assert "C_w_001"[..6] == "C_w_00";
      assert "C_w_00"[..5] == "C_w_0";
      assert "C_w_0"[..4] == "C_w_";
    }
    assert "C_w_001"[..4] == "C_w_";
    assert LastUnderscore("_001") == Some(0) by {
      assert "_001"[..3] == "_00";
      assert "_00"[..2] == "_0";
      assert "_0"[..1] == "_";
    }
  }

  /** The required fields: a string name and non-empty numeric vertex and
      index arrays. */
  predicate HasMesh(obj: Json) {
    && Contains(obj, "name") && Contains(obj, "vertices") && Contains(obj, "indices")
    && Member(obj, "name").JString?
    && Numbers(Member(obj, "vertices")).Some? && Numbers(Member(obj, "indices")).Some?
    && Numbers(Member(obj, "vertices")).value != [] && Numbers(Member(obj, "indices")).value != []
  }

  function Uint32s(rs: seq<real>): (us: seq<nat>)
    ensures |us| == |rs|
    ensures forall i :: 0 <= i < |rs| ==> us[i] == ToUint32(rs[i]) < 0x1_0000_0000
  {
    if rs == [] then [] else Uint32s(rs[..|rs| - 1]) + [ToUint32(rs[|rs| - 1])]
  }

  /** The node as `Node::create` and the mesh component leave it: the
      object's name, its vertex floats unchanged, one 32-bit index per index
      entry, and the transform's defaults. */
  function MeshNode(obj: Json): (n: MapNode)
    requires HasMesh(obj)
    ensures n.name == Member(obj, "name").s
    ensures n.vertices == Numbers(Member(obj, "vertices")).value && n.vertices != []
    ensures |n.indices| == |Member(obj, "indices").items| > 0
    ensures forall i :: 0 <= i < |n.indices| ==> n.indices[i] == ToUint32(ArithmeticValue(Member(obj, "indices").items[i]))
    ensures n.position == Zero3 && n.orientation == IdentityQuat && n.scale == One3
    ensures n.absolutePosition == Zero3 && n.absoluteScale == One3 && !n.dirty && !n.subtreeDirty
    ensures n.material.None? && n.collider.None?
  {
    MapNode(Member(obj, "name").s, Numbers(Member(obj, "vertices")).value,
            Uint32s(Numbers(Member(obj, "indices")).value), Zero3, IdentityQuat, One3,
            Zero3, One3, false, false, None, None)
  }

  /** Position, rotation and scale, in the importer's order: the node with
      the fields applied, or the node as it stood when reading a field
      failed. */
  function Transformed(n0: MapNode, obj: Json): (r: Result<MapNode, MapNode>)
    ensures var n := if r.Ok? then r.value else r.error;
      && n.name == n0.name && n.vertices == n0.vertices && n.indices == n0.indices
      && n.material == n0.material && n.collider == n0.collider
      && n.absolutePosition == n0.absolutePosition && n.absoluteScale == n0.absoluteScale
  {
    var pos := ArrayField(obj, "position", 3);
    if pos.Malformed? then Err(n0)
    else
      var n1 := if pos.Present? then MarkedDirty(n0).(position := Vec3Of(pos.values)) else n0;
      var rot := ArrayField(obj, "rotation", 4);
      if rot.Malformed? then Err(n1)
      else
        var n2 := if rot.Present? then MarkedDirty(n1).(orientation := QuatOf(rot.values)) else n1;
        var sc := ScaleField(obj);
        if sc.Malformed? then Err(n2)
        else Ok(if sc.Present? then MarkedDirty(n2).(scale := Vec3Of(sc.values)) else n2)
  }

  /** Each transform setter first calls `markAsDirty`, which raises both of
      the node's flags. */
  function MarkedDirty(n: MapNode): (r: MapNode)
    ensures r.dirty && r.subtreeDirty
    ensures r.(dirty := n.dirty, subtreeDirty := n.subtreeDirty) == n
  {
    n.(dirty := true, subtreeDirty := true)
  }

  /** `recalculate` on a node without child nodes: a dirty node takes its
      parent's absolute position plus its own, and its parent's absolute
      scale times its own; both flags are cleared either way. */
  function Recalculated(n: MapNode, parentPosition: Vec3, parentScale: Vec3): (r: MapNode)
    ensures !r.dirty && !r.subtreeDirty
    ensures n.dirty ==> r.absolutePosition == Add(parentPosition, n.position) &&
                        r.absoluteScale == Mul(parentScale, n.scale)
    ensures !n.dirty ==> r.absolutePosition == n.absolutePosition && r.absoluteScale == n.absoluteScale
    ensures r.(absolutePosition := n.absolutePosition, absoluteScale := n.absoluteScale,
               dirty := n.dirty, subtreeDirty := n.subtreeDirty) == n
  {
    var m := if n.dirty then n.(absolutePosition := Add(parentPosition, n.position),
                               absoluteScale := Mul(parentScale, n.scale))
             else n;
    m.(dirty := false, subtreeDirty := false)
  }

  /** Whether building the node called a transform setter, whose
      `markAsDirty` climb raises the root's `subtreeDirty`: the setters run
      in order, up to the first malformed field. */
  function Touched(obj: Json): bool
  {
    HasMesh(obj) &&
    match Transformed(MeshNode(obj), obj)
    case Ok(n) => n.dirty
    case Err(n) => n.dirty
  }

  /** The root is raised exactly when the object is accepted and one of the
      transform fields read before the first malformed one is present. */
  lemma TouchedIff(obj: Json)
    ensures Touched(obj) <==>
      && HasMesh(obj)
      && var pos := ArrayField(obj, "position", 3);
         var rot := ArrayField(obj, "rotation", 4);
         || pos.Present?
         || (!pos.Malformed? && rot.Present?)
         || (!pos.Malformed? && !rot.Malformed? && ScaleField(obj).Present?)
  {
  }

  /** The local transform after the three fields: each present field is
      applied, an absent one leaves the value as it was. */
  lemma TransformedFields(n0: MapNode, obj: Json)
    requires Transformed(n0, obj).Ok?
    ensures var n := Transformed(n0, obj).value;
      && (ArrayField(obj, "position", 3).Absent? ==> n.position == n0.position)
      && (ArrayField(obj, "position", 3).Present? ==>
            var p := ArrayField(obj, "position", 3).values; n.position == Vec3(p[0], p[1], p[2]))
      && (ArrayField(obj, "rotation", 4).Absent? ==> n.orientation == n0.orientation)
      && (ArrayField(obj, "rotation", 4).Present? ==>
            var q := ArrayField(obj, "rotation", 4).values; n.orientation == Quat(q[0], q[1], q[2], q[3]))
      && (ScaleField(obj).Absent? ==> n.scale == n0.scale)
      && (ScaleField(obj).Present? ==> n.scale == Vec3Of(ScaleField(obj).values))
  {
  }

  /** Position, rotation and scale are all read without an exception. */
  predicate TransformRead(obj: Json) {
    !ArrayField(obj, "position", 3).Malformed? && !ArrayField(obj, "rotation", 4).Malformed? &&
    !ScaleField(obj).Malformed?
  }

  lemma TransformedOk(n0: MapNode, obj: Json)
    ensures Transformed(n0, obj).Ok? <==> TransformRead(obj)
  {
  }

  /** Under the root's absolute values, a recalculated node that was either
      marked or never moved has its own position and scale as absolute ones. */
  lemma RecalculatedSettles(n: MapNode)
    requires n.dirty || (n.position == Zero3 && n.scale == One3 && n.absolutePosition == Zero3 && n.absoluteScale == One3)
    ensures var r := Recalculated(n, RootAbsolutePosition, RootAbsoluteScale);
      r.absolutePosition == r.position && r.absoluteScale == r.scale
  {
  }

  /** A node that no setter marked keeps its local transform, and a marked
      node has both flags raised. */
  lemma NotDirtyUntouched(n0: MapNode, obj: Json)
    requires !n0.dirty && !n0.subtreeDirty
    ensures var n := match Transformed(n0, obj) case Ok(n) => n case Err(n) => n;
      && (!n.dirty ==> n.position == n0.position && n.orientation == n0.orientation && n.scale == n0.scale)
      && n.subtreeDirty == n.dirty
  {
  }

  // ---------------------------------------------------------------------
  // The loader

  class MapLoader {
    var materialMap: map<string, Material>
    var defaultMaterial: Material
    /** The Blinn-Phong shader handle, when one is set. */
    var shader: Option<nat>

    constructor ()
      ensures materialMap == map[] && defaultMaterial == NoMaterial && shader == None
    {
      materialMap := map[];
      defaultMaterial := NoMaterial;
      shader := None;
    }

    method SetMaterial(prefix: string, material: Material)
      modifies this
      ensures materialMap == old(materialMap)[prefix := material]
      ensures defaultMaterial == old(defaultMaterial) && shader == old(shader)
    {
      materialMap := materialMap[prefix := material];
    }

    method SetDefaultMaterial(material: Material)
      modifies this
      ensures defaultMaterial == material
      ensures materialMap == old(materialMap) && shader == old(shader)
    {
      defaultMaterial := material;
    }

    method SetBlinnPhongShader(s: Option<nat>)
      modifies this
      ensures shader == s
      ensures materialMap == old(materialMap) && defaultMaterial == old(defaultMaterial)
    {
      shader := s;
    }

    /** The material stored for exactly `prefix`, else the default. */
    function GetMaterial(prefix: string): (m: Material)
      reads this
      ensures prefix in materialMap ==> m == materialMap[prefix]
      ensures prefix !in materialMap ==> m == defaultMaterial
    {
      if prefix in materialMap then materialMap[prefix] else defaultMaterial
    }

    /** The default material is applied only when a shader is set and both of
        its textures are non-null. */
    predicate AppliesMaterial()
      reads this
    {
      shader.Some? && defaultMaterial.albedo.Some? && defaultMaterial.specular.Some?
    }

    /** What `createNodeFromJson` yields for one object: rejected unless the
        required fields are there, otherwise the mesh node configured from
        the optional fields. */
    function NodeFromJson(obj: Json): NodeOutcome
      reads this
    {
      if HasMesh(obj) then Configure(MeshNode(obj), obj) else Rejected
    }

    /** The steps after the node exists: the transform fields, then the
        material, then the collider; a malformed optional field abandons the
        node as it stands. */
    function Configure(n0: MapNode, obj: Json): (r: NodeOutcome)
      reads this
      ensures !r.Rejected?
      ensures r.node.name == n0.name && r.node.vertices == n0.vertices && r.node.indices == n0.indices
      ensures var t := Transformed(n0, obj);
              var m := if t.Ok? then t.value else t.error;
              && r.node.position == m.position && r.node.orientation == m.orientation && r.node.scale == m.scale
              && (t.Err? ==> r == Abandoned(m))
              && (r.Created? <==> t.Ok? && !ArrayField(obj, "colliderHalfExtents", 3).Malformed?)
              && (t.Ok? ==> !r.node.dirty && !r.node.subtreeDirty)
              && (t.Ok? && m.dirty ==> r.node.absolutePosition == Add(RootAbsolutePosition, m.position) &&
                                       r.node.absoluteScale == Mul(RootAbsoluteScale, m.scale))
              && (t.Ok? && !m.dirty ==> r.node.absolutePosition == m.absolutePosition &&
                                        r.node.absoluteScale == m.absoluteScale)
    {
      match Transformed(n0, obj)
      case Err(partial) => Abandoned(partial)
      case Ok(n3) =>
        var recalculated := Recalculated(n3, RootAbsolutePosition, RootAbsoluteScale);
        var n4 := if AppliesMaterial() then recalculated.(material := Some(defaultMaterial)) else recalculated;
        var he := ArrayField(obj, "colliderHalfExtents", 3);
        if he.Malformed? then Abandoned(n4)
        else if he.Present? && Positive(Vec3Of(he.values)) then Created(n4.(collider := Some(Vec3Of(he.values))))
        else Created(n4)
    }

    /** An object is rejected, before any node exists, exactly when it lacks
        a string name or non-empty numeric vertex and index arrays. */
    lemma RejectedIff(obj: Json)
      ensures NodeFromJson(obj).Rejected? <==> !HasMesh(obj)
    {
    }

    /** Every node that was created, even one later abandoned, carries the
        object's name, vertex floats and 32-bit indices. */
    lemma NodeKeepsMesh(obj: Json)
      requires !NodeFromJson(obj).Rejected?
      ensures HasMesh(obj)
      ensures NodeFromJson(obj).node.name == MeshNode(obj).name
      ensures NodeFromJson(obj).node.vertices == MeshNode(obj).vertices
      ensures NodeFromJson(obj).node.indices == MeshNode(obj).indices
    {
    }

    /** A created node has been through every optional field: it is
        abandoned exactly when one of them is long enough but not numeric. */
    lemma CreatedIff(obj: Json)
      requires !NodeFromJson(obj).Rejected?
      ensures NodeFromJson(obj).Created? <==>
        !ArrayField(obj, "position", 3).Malformed? && !ArrayField(obj, "rotation", 4).Malformed? &&
        !ScaleField(obj).Malformed? && !ArrayField(obj, "colliderHalfExtents", 3).Malformed?
    {
      TransformedOk(MeshNode(obj), obj);
    }

    /** Position, rotation and scale of a created node: read from the object
        when present (rotation in (w, x, y, z) order, a single number as a
        uniform scale), the transform's defaults otherwise. */
    lemma CreatedTransform(obj: Json)
      requires NodeFromJson(obj).Created?
      ensures var n := NodeFromJson(obj).node;
        && (ArrayField(obj, "position", 3).Absent? ==> n.position == Zero3)
        && (ArrayField(obj, "position", 3).Present? ==>
              var p := ArrayField(obj, "position", 3).values; n.position == Vec3(p[0], p[1], p[2]))
        && (ArrayField(obj, "rotation", 4).Absent? ==> n.orientation == IdentityQuat)
        && (ArrayField(obj, "rotation", 4).Present? ==>
              var q := ArrayField(obj, "rotation", 4).values; n.orientation == Quat(q[0], q[1], q[2], q[3]))
        && (ScaleField(obj).Absent? ==> n.scale == One3)
        && (ScaleField(obj).Present? ==> n.scale == Vec3Of(ScaleField(obj).values))
        && (Contains(obj, "scale") && Member(obj, "scale").JNumber? ==>
              var k := Member(obj, "scale").n; n.scale == Vec3(k, k, k))
    {
      TransformedFields(MeshNode(obj), obj);
    }

    /** The default material is applied to a created node exactly when a
        shader is set and both default textures exist. */
    lemma CreatedMaterial(obj: Json)
      requires NodeFromJson(obj).Created?
      ensures NodeFromJson(obj).node.material.Some? <==> AppliesMaterial()
      ensures NodeFromJson(obj).node.material.Some? ==> NodeFromJson(obj).node.material.value == defaultMaterial
    {
    }

    /** A created node has a box collider exactly when the object gives at
        least three half extents, all numbers and all positive; the box uses
        the first three. */
    lemma ColliderIff(obj: Json)
      requires NodeFromJson(obj).Created?
      ensures NodeFromJson(obj).node.collider.Some? <==>
        var he := ArrayField(obj, "colliderHalfExtents", 3);
        he.Present? && he.values[0] > 0.0 && he.values[1] > 0.0 && he.values[2] > 0.0
      ensures NodeFromJson(obj).node.collider.Some? ==>
        var he := ArrayField(obj, "colliderHalfExtents", 3).values;
        NodeFromJson(obj).node.collider.value == Vec3(he[0], he[1], he[2])
    {
    }

    /** Once position, rotation and scale have been read, `recalculate`
        leaves the node settled under the root, whatever the collider field
        then does: both flags clear, and its absolute position and scale
        equal its own, the root being at the origin with unit scale.  A node
        abandoned while reading its transform was never recalculated: it
        keeps the default absolute values, and its flags are raised exactly
        when a setter ran. */
    lemma Settled(obj: Json)
      requires HasMesh(obj)
      ensures var n := NodeFromJson(obj).node;
        && (TransformRead(obj) ==>
              && !n.dirty && !n.subtreeDirty
              && n.absolutePosition == n.position && n.absoluteScale == n.scale)
        && (!TransformRead(obj) ==>
              && NodeFromJson(obj).Abandoned?
              && n.absolutePosition == Zero3 && n.absoluteScale == One3
              && (n.dirty <==> Touched(obj)) && (n.subtreeDirty <==> Touched(obj)))
    {
      var n0 := MeshNode(obj);
      TransformedOk(n0, obj);
      NotDirtyUntouched(n0, obj);
      match Transformed(n0, obj)
      case Ok(n3) =>
        RecalculatedSettles(n3);
      case Err(partial) =>
    }

    /** What each object of the document leaves behind, in order. */
    function Steps(objs: seq<Json>): (r: seq<Step>)
      reads this
      ensures |r| == |objs|
      ensures forall j :: 0 <= j < |objs| ==> r[j] == Step(NodeFromJson(objs[j]), Touched(objs[j]))
    {
      if objs == [] then []
      else
        var init := objs[..|objs| - 1];
        assert forall j :: 0 <= j < |init| ==> init[j] == objs[j];
        Steps(init) + [Step(NodeFromJson(objs[|objs| - 1]), Touched(objs[|objs| - 1]))]
    }

    /** The loop over a document's objects: every object whose node was
        created (completed or abandoned) leaves a child under the root; only
        completed ones are counted. */
    function LoadObjects(objs: seq<Json>): (r: Loaded)
      reads this
      ensures r.root.name == MapRootName
      ensures r.loadedCount <= |r.root.children| <= |objs|
    {
      Gather(Steps(objs))
    }

    lemma LoadObjectsStep(objs: seq<Json>, i: nat)
      requires i < |objs|
      ensures LoadObjects(objs[..i + 1]) == Absorb(LoadObjects(objs[..i]), NodeFromJson(objs[i]), Touched(objs[i]))
    {
      assert objs[..i + 1][..i] == objs[..i];
      GatherSnoc(Steps(objs[..i]), Step(NodeFromJson(objs[i]), Touched(objs[i])));
    }

    /** The positions of the objects that are not rejected, in document
        order. */
    function Accepted(objs: seq<Json>): (idx: seq<nat>)
      reads this
      ensures forall k :: 0 <= k < |idx| ==> idx[k] < |objs| && !NodeFromJson(objs[idx[k]]).Rejected?
    {
      Kept(Steps(objs))
    }

    /** `Accepted` lists every non-rejected position once, in increasing
        order, and no other. */
    lemma AcceptedExactly(objs: seq<Json>)
      ensures forall k, l :: 0 <= k < l < |Accepted(objs)| ==> Accepted(objs)[k] < Accepted(objs)[l]
      ensures forall j :: 0 <= j < |objs| ==> (j in Accepted(objs) <==> !NodeFromJson(objs[j]).Rejected?)
    {
      KeptExactly(Steps(objs));
    }

    /** The root's children are exactly the nodes of the non-rejected
        objects, in document order, whether they were completed or
        abandoned. */
    lemma LoadedChildren(objs: seq<Json>)
      ensures |LoadObjects(objs).root.children| == |Accepted(objs)|
      ensures forall k :: 0 <= k < |Accepted(objs)| ==>
                LoadObjects(objs).root.children[k] == NodeFromJson(objs[Accepted(objs)[k]]).node
    {
      GatheredChildren(Steps(objs));
    }

    /** The loaded count is the number of objects whose node was completed;
        rejected and abandoned objects are not counted. */
    lemma LoadedCount(objs: seq<Json>)
      ensures LoadObjects(objs).loadedCount == |set j | 0 <= j < |objs| && NodeFromJson(objs[j]).Created?|
    {
      GatheredCount(Steps(objs));
      assert (set j | 0 <= j < |objs| && NodeFromJson(objs[j]).Created?)
          == (set j | 0 <= j < |Steps(objs)| && Steps(objs)[j].outcome.Created?);
    }

    /** The root ends `subtreeDirty` exactly when some object's setters ran. */
    lemma RootDirtyIff(objs: seq<Json>)
      ensures LoadObjects(objs).root.subtreeDirty <==> exists j :: 0 <= j < |objs| && Touched(objs[j])
    {
      GatheredRootDirty(Steps(objs));
      var steps := Steps(objs);
      if exists j :: 0 <= j < |steps| && steps[j].touched {
        var j :| 0 <= j < |steps| && steps[j].touched;
        assert Touched(objs[j]);
      }
    }

    /** Every child under the root is the node of some object of the
        document that was not rejected. */
    lemma ChildrenFromObjects(objs: seq<Json>)
      ensures forall c :: c in LoadObjects(objs).root.children ==>
        exists j :: 0 <= j < |objs| && !NodeFromJson(objs[j]).Rejected? && NodeFromJson(objs[j]).node == c
    {
      LoadedChildren(objs);
      var children := LoadObjects(objs).root.children;
      forall c | c in children
        ensures exists j :: 0 <= j < |objs| && !NodeFromJson(objs[j]).Rejected? && NodeFromJson(objs[j]).node == c
      {
        var k :| 0 <= k < |children| && children[k] == c;
        var j := Accepted(objs)[k];
        assert NodeFromJson(objs[j]).node == c;
      }
    }

    /** When every object is accepted, the root holds one child per object,
        in document order, and all of them are counted. */
    lemma AllCreated(objs: seq<Json>)
      requires forall j :: 0 <= j < |objs| ==> NodeFromJson(objs[j]).Created?
      ensures LoadObjects(objs).loadedCount == |LoadObjects(objs).root.children| == |objs|
      ensures forall j :: 0 <= j < |objs| ==> LoadObjects(objs).root.children[j] == NodeFromJson(objs[j]).node
    {
      GatheredAllCreated(Steps(objs));
    }

    /** Reads the object fields one after another, as the importer does,
        updating the node's transform in place; `touched` reports whether a
        setter's `markAsDirty` reached the parent. */
    method CreateNodeFromJson(obj: Json) returns (outcome: NodeOutcome, touched: bool)
      ensures outcome == NodeFromJson(obj)
      ensures touched == Touched(obj)
    {
      if !(Contains(obj, "name") && Contains(obj, "vertices") && Contains(obj, "indices")) {
        return Rejected, false;
      }
      var nameValue := Member(obj, "name");
      if !nameValue.JString? {
        return Rejected, false;
      }
      var vs := Numbers(Member(obj, "vertices"));
      var ix := Numbers(Member(obj, "indices"));
      if vs.None? || ix.None? {
        return Rejected, false;
      }
      if vs.value == [] || ix.value == [] {
        return Rejected, false;
      }
      var indices := Uint32s(ix.value);
      var created := MapNode(nameValue.s, vs.value, indices, Zero3, IdentityQuat, One3, Zero3, One3, false, false, None, None);
      assert created == MeshNode(obj);
      var transformed := ApplyTransform(created, obj);
      if transformed.Err? {
        return Abandoned(transformed.error), transformed.error.dirty;
      }
      touched := transformed.value.dirty;
      var node := Recalculated(transformed.value, RootAbsolutePosition, RootAbsoluteScale);
      if shader.Some? && defaultMaterial.albedo.Some? && defaultMaterial.specular.Some? {
        node := node.(material := Some(defaultMaterial));
      }
      var he := ArrayField(obj, "colliderHalfExtents", 3);
      if he.Malformed? {
        return Abandoned(node), touched;
      }
      if he.Present? && Positive(Vec3Of(he.values)) {
        node := node.(collider := Some(Vec3Of(he.values)));
      }
      outcome := Created(node);
    }

    /** The position, rotation and scale fields, read and applied in turn. */
    method ApplyTransform(n0: MapNode, obj: Json) returns (r: Result<MapNode, MapNode>)
      ensures r == Transformed(n0, obj)
    {
      var node := n0;
      var pos := ArrayField(obj, "position", 3);
      if pos.Malformed? {
        return Err(node);
      }
      if pos.Present? {
        node := MarkedDirty(node).(position := Vec3Of(pos.values));
      }
      var rot := ArrayField(obj, "rotation", 4);
      if rot.Malformed? {
        return Err(node);
      }
      if rot.Present? {
        node := MarkedDirty(node).(orientation := QuatOf(rot.values));
      }
      var sc := ScaleField(obj);
      if sc.Malformed? {
        return Err(node);
      }
      if sc.Present? {
        node := MarkedDirty(node).(scale := Vec3Of(sc.values));
      }
      r := Ok(node);
    }

    /** Loads a parsed map document: the version must be present and equal
        to 1 and `objects` must be an array, otherwise nothing is created;
        then each object is processed in order, an exception skipping only
        that object. */
    method LoadMap(doc: Json) returns (r: Result<Loaded, LoadError>)
      ensures !(Contains(doc, "version") && Member(doc, "version") == JNumber(1.0)) ==> r == Err(UnsupportedVersion)
      ensures Contains(doc, "version") && Member(doc, "version") == JNumber(1.0) ==>
        if Contains(doc, "objects") && Member(doc, "objects").JArray?
        then r == Ok(LoadObjects(Member(doc, "objects").items))
        else r == Err(MissingObjects)
    {
      if !Contains(doc, "version") || Member(doc, "version") != JNumber(1.0) {
        return Err(UnsupportedVersion);
      }
      if !Contains(doc, "objects") || !Member(doc, "objects").JArray? {
        return Err(MissingObjects);
      }
      var objs := Member(doc, "objects").items;
      var children: seq<MapNode> := [];
      var loadedCount: nat := 0;
      var rootDirty := false;
      for i := 0 to |objs|
        invariant Loaded(MapRoot(MapRootName, children, rootDirty), loadedCount) == LoadObjects(objs[..i])
      {
        LoadObjectsStep(objs, i);
        var outcome, touched := CreateNodeFromJson(objs[i]);
        rootDirty := rootDirty || touched;
        match outcome
        case Rejected =>
        case Abandoned(n) =>
          children := children + [n];
        case Created(n) =>
          children := children + [n];
          loadedCount := loadedCount + 1;
      }
      assert objs[..|objs|] == objs;
      r := Ok(Loaded(MapRoot(MapRootName, children, rootDirty), loadedCount));
    }
  }

  /** An index value is truncated toward zero, then wrapped into 32 bits. */
  lemma ToUint32Examples()
    ensures ToUint32(3.7) == 3
    ensures ToUint32(-2.5) == 0x1_0000_0000 - 2
    ensures ToUint32(4294967296.0) == 0
  {
  }

  /** One object's outcome folded into the loaded root; `touched` says
      whether a setter's `markAsDirty` climbed to the root. */
  function Absorb(prev: Loaded, outcome: NodeOutcome, touched: bool): (r: Loaded)
    ensures r.root.name == prev.root.name
    ensures r.root.subtreeDirty == (prev.root.subtreeDirty || touched)
    ensures r.loadedCount == prev.loadedCount + (if outcome.Created? then 1 else 0)
    ensures r.root.children == prev.root.children + (if outcome.Rejected? then [] else [outcome.node])
  {
    var dirty := prev.root.subtreeDirty || touched;
    match outcome
    case Rejected => Loaded(prev.root.(subtreeDirty := dirty), prev.loadedCount)
    case Abandoned(n) => Loaded(MapRoot(prev.root.name, prev.root.children + [n], dirty), prev.loadedCount)
    case Created(n) => Loaded(MapRoot(prev.root.name, prev.root.children + [n], dirty), prev.loadedCount + 1)
  }

  /** What one object leaves behind: its outcome, and whether one of its
      setters raised the root's `subtreeDirty`. */
  datatype Step = Step(outcome: NodeOutcome, touched: bool)

  /** The loader's loop over the objects' steps, starting from a fresh
      root. */
  function Gather(steps: seq<Step>): (r: Loaded)
    ensures r.root.name == MapRootName
    ensures r.loadedCount <= |r.root.children| <= |steps|
  {
    if steps == [] then Loaded(MapRoot(MapRootName, [], false), 0)
    else Absorb(Gather(steps[..|steps| - 1]), steps[|steps| - 1].outcome, steps[|steps| - 1].touched)
  }

  lemma GatherSnoc(steps: seq<Step>, s: Step)
    ensures Gather(steps + [s]) == Absorb(Gather(steps), s.outcome, s.touched)
  {
    assert (steps + [s])[..|steps|] == steps;
  }

  /** The positions of the steps whose object was not rejected. */
  function Kept(steps: seq<Step>): (idx: seq<nat>)
    ensures forall k :: 0 <= k < |idx| ==> idx[k] < |steps| && !steps[idx[k]].outcome.Rejected?
  {
    if steps == [] then []
    else
      var init := steps[..|steps| - 1];
      assert forall j :: 0 <= j < |init| ==> init[j] == steps[j];
      Kept(init) + (if steps[|steps| - 1].outcome.Rejected? then [] else [|steps| - 1])
  }

  lemma {:induction false} KeptExactly(steps: seq<Step>)
    ensures forall k, l :: 0 <= k < l < |Kept(steps)| ==> Kept(steps)[k] < Kept(steps)[l]
    ensures forall j :: 0 <= j < |steps| ==> (j in Kept(steps) <==> !steps[j].outcome.Rejected?)
  {
    if steps != [] {
      var init := steps[..|steps| - 1];
      KeptExactly(init);
      assert forall j :: 0 <= j < |init| ==> init[j] == steps[j];
    }
  }

  lemma {:induction false} GatheredChildren(steps: seq<Step>)
    ensures |Gather(steps).root.children| == |Kept(steps)|
    ensures forall k :: 0 <= k < |Kept(steps)| ==> Gather(steps).root.children[k] == steps[Kept(steps)[k]].outcome.node
  {
    if steps != [] {
      var init := steps[..|steps| - 1];
      GatheredChildren(init);
      assert forall j :: 0 <= j < |init| ==> init[j] == steps[j];
    }
  }

  lemma {:induction false} GatheredCount(steps: seq<Step>)
    ensures Gather(steps).loadedCount == |set j | 0 <= j < |steps| && steps[j].outcome.Created?|
  {
    if steps != [] {
      var n := |steps| - 1;
      var init := steps[..n];
      GatheredCount(init);
      var before := set j | 0 <= j < |init| && init[j].outcome.Created?;
      var after := set j | 0 <= j < |steps| && steps[j].outcome.Created?;
      assert forall j :: 0 <= j < n ==> init[j] == steps[j];
      assert after == before + (if steps[n].outcome.Created? then {n} else {});
      assert n !in before;
    }
  }

  lemma {:induction false} GatheredRootDirty(steps: seq<Step>)
    ensures Gather(steps).root.subtreeDirty <==> exists j :: 0 <= j < |steps| && steps[j].touched
  {
    if steps != [] {
      var init := steps[..|steps| - 1];
      GatheredRootDirty(init);
      assert forall j :: 0 <= j < |init| ==> init[j] == steps[j];
    }
  }

  lemma {:induction false} GatheredAllCreated(steps: seq<Step>)
    requires forall j :: 0 <= j < |steps| ==> steps[j].outcome.Created?
    ensures Gather(steps).loadedCount == |Gather(steps).root.children| == |steps|
    ensures forall j :: 0 <= j < |steps| ==> Gather(steps).root.children[j] == steps[j].outcome.node
  {
    if steps != [] {
      var init := steps[..|steps| - 1];
      assert forall j :: 0 <= j < |init| ==> init[j] == steps[j];
      GatheredAllCreated(init);
    }
  }

  /** The scale member: a number gives a uniform scale, an array of at least
      three entries a per-axis scale; anything else is ignored. */
  function ScaleField(obj: Json): (f: Field)
    ensures f.Present? ==> |f.values| >= 3
  {
    if Contains(obj, "scale") && Member(obj, "scale").JNumber? then
      var s := Member(obj, "scale").n;
      Present([s, s, s])
    else ArrayField(obj, "scale", 3)
  }
}

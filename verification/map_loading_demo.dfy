/** The text level reader of the map-loading demo (demos/map_loading_demo.h,
    `loadMaterials` and `loadMap`): a stream of whitespace-separated records
    of twelve fields, each placing a static textured box.  Opening the file
    and the stream's own number parsing are outside the model: the reader
    receives the stream as tokens, each with the number it reads as, if any. */
module MapLoadingDemo {
  import opened Common
  import opened MapLoader

  /** One whitespace-separated word of the level file, with the value a
      `float` extraction yields for it (None: the extraction fails). */
  datatype Token = Token(text: string, number: Option<real>)

  /** name, material, position (3), rotation (w, x, y, z), full size (3). */
  datatype LevelRecord = LevelRecord(name: string, material: string, position: Vec3, rotation: Quat, size: Vec3)

  /** A placed box: its visual transform, its collision half extents and
      mass, and the material drawn on it. */
  datatype PlacedBox = PlacedBox(
    name: string,
    position: Vec3,
    orientation: Quat,
    scale: Vec3,
    halfExtents: Vec3,
    mass: real,
    material: Material)

  const FieldsPerRecord: nat := 12

  const WallKey: string := "Wall"
  const FloorKey: string := "Floor"

  predicate NumericFrom(toks: seq<Token>, from: nat)
  {
    from <= |toks| && forall k :: from <= k < |toks| ==> toks[k].number.Some?
  }

  /** The record at the front of the stream, when twelve fields can be
      extracted: the first two as words, the other ten as numbers. */
  function ReadRecord(toks: seq<Token>): (r: Option<LevelRecord>)
    ensures r.Some? <==> |toks| >= FieldsPerRecord && NumericFrom(toks[..FieldsPerRecord], 2)
    ensures r.Some? ==> r.value.name == toks[0].text && r.value.material == toks[1].text
  {
    if |toks| < FieldsPerRecord || !NumericFrom(toks[..FieldsPerRecord], 2) then None
    else
      Some(LevelRecord(toks[0].text, toks[1].text,
                       Vec3(toks[2].number.value, toks[3].number.value, toks[4].number.value),
                       Quat(toks[5].number.value, toks[6].number.value, toks[7].number.value, toks[8].number.value),
                       Vec3(toks[9].number.value, toks[10].number.value, toks[11].number.value)))
  }

  /** The records the read loop consumes: one after another until the first
      incomplete one. */
  function Records(toks: seq<Token>): (rs: seq<LevelRecord>)
    ensures |rs| <= |toks|
    decreases |toks|
  {
    match ReadRecord(toks)
    case None => []
    case Some(r) => [r] + Records(toks[FieldsPerRecord..])
  }

  /** The part of a material name before its first '.', the whole name when
      it has none. */
  function BaseName(s: string): (r: string)
    ensures |r| <= |s| && r == s[..|r|]
    ensures forall k :: 0 <= k < |r| ==> r[k] != '.'
    ensures |r| < |s| ==> s[|r|] == '.'
  {
    if s == [] || s[0] == '.' then [] else [s[0]] + BaseName(s[1..])
  }

  /** The placement of one record: position and orientation verbatim, the
      full size as visual scale, half the size as collider, mass 0. */
  function Place(r: LevelRecord, material: Material): (b: PlacedBox)
  {
    PlacedBox(r.name, r.position, r.rotation, r.size,
              Vec3(r.size.x / 2.0, r.size.y / 2.0, r.size.z / 2.0), 0.0, material)
  }

  /** Material of a record: an exact key match, else the base name's match,
      else the default. */
  function ResolveMaterial(table: map<string, Material>, fallback: Material, name: string): (m: Material)
    ensures name in table ==> m == table[name]
    ensures name !in table && BaseName(name) in table ==> m == table[BaseName(name)]
    ensures name !in table && BaseName(name) !in table ==> m == fallback
  {
    if name in table then table[name]
    else if BaseName(name) in table then table[BaseName(name)]
    else fallback
  }

  /** The boxes placed for a run of records, in order. */
  function Placements(table: map<string, Material>, fallback: Material, rs: seq<LevelRecord>): (bs: seq<PlacedBox>)
    ensures |bs| == |rs|
  {
    if rs == [] then []
    else Placements(table, fallback, rs[..|rs| - 1]) + [Place(rs[|rs| - 1], ResolveMaterial(table, fallback, rs[|rs| - 1].material))]
  }

  lemma PlacementsSnoc(table: map<string, Material>, fallback: Material, rs: seq<LevelRecord>, r: LevelRecord)
    ensures Placements(table, fallback, rs + [r]) ==
            Placements(table, fallback, rs) + [Place(r, ResolveMaterial(table, fallback, r.material))]
  {
    assert (rs + [r])[..|rs|] == rs;
  }

  /** Box k is placed from record k with its resolved material. */
  lemma {:induction false} PlacementsAt(table: map<string, Material>, fallback: Material, rs: seq<LevelRecord>, k: nat)
    requires k < |rs|
    ensures Placements(table, fallback, rs)[k] == Place(rs[k], ResolveMaterial(table, fallback, rs[k].material))
  {
    if k < |rs| - 1 {
      PlacementsAt(table, fallback, rs[..|rs| - 1], k);
    }
  }

  class LevelDemo {
    var materialMap: map<string, Material>
    var defaultMaterial: Material
    /** The boxes placed so far, in reading order. */
    var boxes: seq<PlacedBox>

    constructor ()
      ensures materialMap == map[] && defaultMaterial == NoMaterial && boxes == []
    {
      materialMap := map[];
      defaultMaterial := NoMaterial;
      boxes := [];
    }

    /** The material table: both keys get their material, the wall
        material doubles as the default. */
    method LoadMaterials(wall: Material, floor: Material)
      modifies this
      ensures materialMap == old(materialMap)[WallKey := wall][FloorKey := floor]
      ensures defaultMaterial == wall && boxes == old(boxes)
    {
      materialMap := materialMap[WallKey := wall];
      materialMap := materialMap[FloorKey := floor];
      defaultMaterial := wall;
    }

    /** The demo's `loadMap`: reads the level and appends its boxes. */
    method LoadMap(toks: seq<Token>) returns (count: nat)
      modifies `boxes
      ensures count == |Records(toks)|
      ensures boxes == old(boxes) + Placements(materialMap, defaultMaterial, Records(toks))
    {
      var placed;
      placed, count := ReadLevel(toks, materialMap, defaultMaterial);
      boxes := boxes + placed;
    }
  }

  /** One more record read off the front of the remaining tokens. */
  lemma ReadOne(all: seq<LevelRecord>, read: seq<LevelRecord>, rest: seq<Token>, rec: LevelRecord)
    requires ReadRecord(rest) == Some(rec) && all == read + Records(rest)
    ensures |rest| >= FieldsPerRecord && all == (read + [rec]) + Records(rest[FieldsPerRecord..])
  {
    assert Records(rest) == [rec] + Records(rest[FieldsPerRecord..]);
  }

  /** Reads records until the first incomplete one, placing one box per
      record with its resolved material; returns the boxes and how many
      records were read. */
  method ReadLevel(toks: seq<Token>, table: map<string, Material>, fallback: Material)
    returns (placed: seq<PlacedBox>, count: nat)
    ensures count == |Records(toks)|
    ensures placed == Placements(table, fallback, Records(toks))
  {
    var rest := toks;
    placed := [];
    count := 0;
    ghost var read: seq<LevelRecord> := [];
    while true
      invariant Records(toks) == read + Records(rest)
      invariant count == |read|
      invariant placed == Placements(table, fallback, read)
      decreases |rest|
    {
      var r := ReadRecord(rest);
      if r.None? {
        break;
      }
      var rec := r.value;
      placed := placed + [Place(rec, ResolveMaterial(table, fallback, rec.material))];
      PlacementsSnoc(table, fallback, read, rec);
      ReadOne(Records(toks), read, rest, rec);
      read := read + [rec];
      rest := rest[FieldsPerRecord..];
      count := count + 1;
    }
    assert Records(toks) == read;
  }

  /** The base name is the text before the first '.', or the whole name. */
  lemma {:induction false} BaseNameSplit(p: string, q: string)
    requires forall k :: 0 <= k < |p| ==> p[k] != '.'
    ensures BaseName(p + "." + q) == p
    ensures BaseName(p) == p
  {
    if p != [] {
      assert (p + "." + q)[1..] == p[1..] + "." + q;
      BaseNameSplit(p[1..], q);
    }
  }

  /** Every placed box is a static body whose collider is half its visual
      scale in every axis. */
  lemma PlacedBoxShape(r: LevelRecord, m: Material)
    ensures Place(r, m).mass == 0.0
    ensures Place(r, m).halfExtents.x * 2.0 == Place(r, m).scale.x
    ensures Place(r, m).halfExtents.y * 2.0 == Place(r, m).scale.y
    ensures Place(r, m).halfExtents.z * 2.0 == Place(r, m).scale.z
    ensures Place(r, m).scale == r.size && Place(r, m).position == r.position && Place(r, m).orientation == r.rotation
  {
  }

  /** Reading consumes whole records only: what is left after the last one
      read cannot form another record. */
  lemma {:induction false} RecordsStopAtIncomplete(toks: seq<Token>)
    ensures |Records(toks)| * FieldsPerRecord <= |toks|
    ensures ReadRecord(toks[|Records(toks)| * FieldsPerRecord..]).None?
    decreases |toks|
  {
    if ReadRecord(toks).Some? {
      var rest := toks[FieldsPerRecord..];
      RecordsStopAtIncomplete(rest);
      var n := |Records(rest)|;
      assert |Records(toks)| == n + 1;
      assert (n + 1) * FieldsPerRecord == n * FieldsPerRecord + FieldsPerRecord;
      assert toks[(n + 1) * FieldsPerRecord..] == rest[n * FieldsPerRecord..];
    }
  }

  /** A stream made of whole records is read entirely. */
  lemma {:induction false} RecordsOfWholeStream(toks: seq<Token>, n: nat)
    requires |toks| == n * FieldsPerRecord
    requires forall k :: 0 <= k < |toks| && k % FieldsPerRecord >= 2 ==> toks[k].number.Some?
    ensures |Records(toks)| == n
  {
    if n > 0 {
      var rest := toks[FieldsPerRecord..];
      assert forall k :: 0 <= k < |rest| && k % FieldsPerRecord >= 2 ==> rest[k].number.Some? by {
        forall k | 0 <= k < |rest| && k % FieldsPerRecord >= 2
          ensures rest[k].number.Some?
        {
          assert rest[k] == toks[k + FieldsPerRecord];
          assert (k + FieldsPerRecord) % FieldsPerRecord == k % FieldsPerRecord;
        }
      }
      assert NumericFrom(toks[..FieldsPerRecord], 2) by {
        forall k | 2 <= k < FieldsPerRecord
          ensures toks[..FieldsPerRecord][k].number.Some?
        {
          assert k % FieldsPerRecord == k;
        }
      }
      RecordsOfWholeStream(rest, n - 1);
    }
  }

  /** A name with a '.' that is not itself a key resolves through the text
      before its first '.': "Wall.001" draws with the "Wall" material. */
  lemma ResolveDotted(table: map<string, Material>, fallback: Material, p: string, q: string)
    requires forall k :: 0 <= k < |p| ==> p[k] != '.'
    requires p + "." + q !in table
    ensures ResolveMaterial(table, fallback, p + "." + q) == if p in table then table[p] else fallback
  {
    BaseNameSplit(p, q);
  }

  /** A name without a '.' resolves to its own entry or the default. */
  lemma ResolveUndotted(table: map<string, Material>, fallback: Material, p: string)
    requires forall k :: 0 <= k < |p| ==> p[k] != '.'
    ensures ResolveMaterial(table, fallback, p) == if p in table then table[p] else fallback
  {
    BaseNameSplit(p, "");
  }
}

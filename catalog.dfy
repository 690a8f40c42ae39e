/** The tile catalog (tileModels.js): a constant table of tile types and lookups with defaults. */
module TileCatalog {
  import opened Wrappers
  import opened Geometry

  /** One catalog entry; `meshName`, `normalizationScale` and `normalizationRotateX` are optional. */
  datatype TileModel = TileModel(
    name: string,
    kind: string,
    url: string,
    meshName: Option<string>,
    normalizationScale: Option<Vec3>,
    normalizationRotateX: Option<real>,
    qLength: nat,
    sLength: nat)

  /** `Math.PI / 2` as the double the source stores. */
  const HalfPi: real := 1.5707963267948966

  function Basic(name: string, url: string): TileModel {
    TileModel(name, "basic", url, None, None, None, 1, 1)
  }

  /** `tileModels`. */
  const TileModels: map<string, TileModel> := map[
    "first" := Basic("first", "/threejs/textures/stone-floor-texture.png"),
    "second" := Basic("second", "/threejs/textures/wall-texture.png"),
    "third" := Basic("third", "/threejs/textures/doorway-texture.png"),
    "fourth" := Basic("fourth", "/threejs/textures/water-texture.png"),
    "fifth" := Basic("fifth", "/threejs/textures/pit-texture.png"),
    "specialFloor" := TileModel(
      "specialFloor", "gltf", "/threejs/models/Dungeon_Modules/glb/Floor_Modular.glb",
      Some("Floor_Modular"), Some(Vec3(50.0, 130.0, 50.0)), Some(HalfPi), 1, 1)
  ]

  /** Every catalog key is its entry's name, and every tile covers one cell. */
  lemma CatalogWellFormed()
    ensures forall k | k in TileModels :: TileModels[k].name == k
    ensures forall k | k in TileModels :: TileModels[k].qLength == 1 && TileModels[k].sLength == 1
    ensures forall k | k in TileModels :: TileModels[k].kind == "basic" || TileModels[k].kind == "gltf"
  {
  }

  /** `getTileModel`: the entry, or undefined. */
  function GetTileModel(name: string): (r: Option<TileModel>)
    ensures r.Some? <==> name in TileModels
    ensures r.Some? ==> r.value == TileModels[name] && r.value.name == name
  {
    if name in TileModels then Some(TileModels[name]) else None
  }

  datatype TileDetails = TileDetails(name: string, qLength: nat, sLength: nat)

  /** `getTileDetails`: the name with the entry's footprint; destructuring an unknown entry throws. */
  function GetTileDetails(name: string): (r: Result<TileDetails>)
    ensures r.Ok? <==> name in TileModels
    ensures r.Ok? ==> r.value.name == name && r.value.qLength == TileModels[name].qLength
                      && r.value.sLength == TileModels[name].sLength
  {
    match GetTileModel(name)
    case None => Err(TypeError)
    case Some(m) => Ok(TileDetails(name, m.qLength, m.sLength))
  }

  /** `getTileType`: the entry's type, or undefined for an unknown name. */
  function GetTileType(name: string): (r: Option<string>)
    ensures r.Some? <==> name in TileModels
    ensures r.Some? ==> r.value == TileModels[name].kind
  {
    match GetTileModel(name)
    case None => None
    case Some(m) => Some(m.kind)
  }

  /** `getTileMeshName`: the entry's mesh name, possibly undefined; an unknown name throws. */
  function GetTileMeshName(name: string): (r: Result<Option<string>>)
    ensures r.Ok? <==> name in TileModels
    ensures r.Ok? ==> r.value == TileModels[name].meshName
  {
    match GetTileModel(name)
    case None => Err(TypeError)
    case Some(m) => Ok(m.meshName)
  }

  /** `getTileNormalizationScale`: the entry's scale, or the unit scale when it has none. */
  function GetTileNormalizationScale(name: string): (r: Result<Vec3>)
    ensures r.Ok? <==> name in TileModels
    ensures r.Ok? && TileModels[name].normalizationScale.Some? ==> r.value == TileModels[name].normalizationScale.value
    ensures r.Ok? && TileModels[name].normalizationScale.None? ==> r.value == Vec3(1.0, 1.0, 1.0)
  {
    match GetTileModel(name)
    case None => Err(TypeError)
    case Some(m) => Ok(m.normalizationScale.GetOr(Vec3(1.0, 1.0, 1.0)))
  }

  /** `getTileNormalizationRotateX`: the entry's angle when it is truthy (present and non-zero), else 0. */
  function GetTileNormalizationRotateX(name: string): (r: Result<real>)
    ensures r.Ok? <==> name in TileModels
    ensures r.Ok? ==> (r.value != 0.0 <==> TileModels[name].normalizationRotateX.Some? && TileModels[name].normalizationRotateX.value != 0.0)
    ensures r.Ok? && r.value != 0.0 ==> TileModels[name].normalizationRotateX == Some(r.value)
  {
    match GetTileModel(name)
    case None => Err(TypeError)
    case Some(m) =>
      if m.normalizationRotateX.Some? && m.normalizationRotateX.value != 0.0 then Ok(m.normalizationRotateX.value) else Ok(0.0)
  }

  /** Concretely: the special floor is the only entry with a mesh name, a scale and a rotation. */
  lemma SpecialFloorNormalization()
    ensures GetTileMeshName("specialFloor") == Ok(Some("Floor_Modular"))
    ensures GetTileNormalizationScale("specialFloor") == Ok(Vec3(50.0, 130.0, 50.0))
    ensures GetTileNormalizationRotateX("specialFloor") == Ok(HalfPi)
    ensures forall k | k in TileModels && k != "specialFloor" ::
              GetTileMeshName(k) == Ok(None) && GetTileNormalizationScale(k) == Ok(Vec3(1.0, 1.0, 1.0))
              && GetTileNormalizationRotateX(k) == Ok(0.0)
  {
  }
}

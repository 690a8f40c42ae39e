/**
 * threeAssetService.js: the texture and glTF asset dictionaries. Assets
 * are queued by name (first URL wins), textures are all (re)loaded by
 * `loadQueuedAssets`, and a glTF entry becomes loaded only when its
 * loader callback runs.
 */
module AssetService {
  import opened Wrappers
  import opened Objects

  /** A loaded texture: `new THREE.TextureLoader(manager).load(url)`. */
  datatype Texture = Texture(url: string)

  /** A loaded glTF, identified by its scene. */
  datatype GltfAsset = GltfAsset(scene: nat)

  /** `SkeletonUtils.clone(gltf.scene)`: a copy of the given scene. */
  datatype ClonedScene = ClonedScene(of: nat)

  /** One queued asset: `{url, name, loaded, value}`; `value` is absent until loaded. */
  datatype AssetItem<T> = AssetItem(url: string, name: string, loaded: bool, value: Option<T>)

  /** The glTF load a call of `loadQueuedAssets` starts: which entry, from which URL. */
  datatype GltfRequest = GltfRequest(name: string, url: string)

  /** `queueAsset` on one dictionary: a new name gets `{url, name, loaded: false}`; a known name is left alone. */
  function Queued<T>(d: Dict<AssetItem<T>>, name: string, url: string): (r: Dict<AssetItem<T>>)
    ensures Get(d, name).Some? ==> r == d
    ensures Get(d, name).None? ==> r == d + [Entry(name, AssetItem(url, name, false, None))]
  {
    if Get(d, name).Some? then d else Put(d, name, AssetItem(url, name, false, None))
  }

  /** Queueing the same name again changes nothing, whatever the URL. */
  lemma QueueIdempotent<T>(d: Dict<AssetItem<T>>, name: string, url1: string, url2: string)
    ensures Queued(Queued(d, name, url1), name, url2) == Queued(d, name, url1)
  {
    GetPut(d, name, AssetItem(url1, name, false, None), name);
  }

  /** After queueing, the name reads as an entry; a newly queued one is unloaded, and no other name changes. */
  lemma QueuedEntry<T>(d: Dict<AssetItem<T>>, name: string, url: string, other: string)
    ensures Get(Queued(d, name, url), name).Some?
    ensures Get(d, name).None? ==> Get(Queued(d, name, url), name) == Some(AssetItem(url, name, false, None))
    ensures other != name ==> Get(Queued(d, name, url), other) == Get(d, other)
  {
    GetPut(d, name, AssetItem(url, name, false, None), name);
    GetPut(d, name, AssetItem(url, name, false, None), other);
  }

  /** One texture item after the loader has run on it: loaded, with the texture for its URL. */
  function LoadedTexture(item: AssetItem<Texture>): AssetItem<Texture> {
    item.(value := Some(Texture(item.url)), loaded := true)
  }

  /** The texture dictionary after `loadQueuedAssets`: every entry, in order, loaded from its own URL. */
  function LoadAll(d: Dict<AssetItem<Texture>>): (r: Dict<AssetItem<Texture>>)
    ensures |r| == |d|
    ensures forall i | 0 <= i < |d| :: r[i] == Entry(d[i].key, LoadedTexture(d[i].value))
  {
    seq(|d|, i requires 0 <= i < |d| => Entry(d[i].key, LoadedTexture(d[i].value)))
  }

  /** Loading keeps the keys and leaves every entry loaded, already loaded ones included, each with its URL's texture. */
  lemma LoadAllEffect(d: Dict<AssetItem<Texture>>, name: string)
    ensures KeysOf(LoadAll(d)) == KeysOf(d)
    ensures Get(LoadAll(d), name).Some? <==> Get(d, name).Some?
    ensures Get(d, name).Some? ==>
              Get(LoadAll(d), name) == Some(Get(d, name).value.(value := Some(Texture(Get(d, name).value.url)), loaded := true))
  {
    var r := LoadAll(d);
    assert KeysOf(r) == KeysOf(d);
    assert IndexOfKey(r, name) == IndexOfKey(d, name) by {
      IndexOfKeySameKeys(r, d, name);
    }
  }

  /** Two dictionaries with the same key sequence find a key at the same position. */
  lemma {:induction false} IndexOfKeySameKeys<V, W>(a: Dict<V>, b: Dict<W>, k: string)
    requires KeysOf(a) == KeysOf(b)
    ensures IndexOfKey(a, k) == IndexOfKey(b, k)
  {
    if |a| > 0 && a[0].key != k {
      assert KeysOf(a[1..]) == KeysOf(b[1..]) by {
        assert forall i | 0 <= i < |a| - 1 :: KeysOf(a[1..])[i] == KeysOf(a)[i + 1];
        assert forall i | 0 <= i < |b| - 1 :: KeysOf(b[1..])[i] == KeysOf(b)[i + 1];
      }
      IndexOfKeySameKeys(a[1..], b[1..], k);
    }
  }

  /** `d[name] && d[name].value`: the loaded value, or nothing for an unqueued or unloaded name. */
  function LoadedValue<T>(d: Dict<AssetItem<T>>, name: string): (r: Option<T>)
    ensures r.Some? <==> Get(d, name).Some? && Get(d, name).value.value.Some?
    ensures r.Some? ==> r == Get(d, name).value.value
  {
    match Get(d, name)
    case None => None
    case Some(item) => item.value
  }

  /** A queued name yields no texture until the textures are loaded; then it yields the texture of the URL it was first queued with. */
  lemma QueueThenLoadTexture(d: Dict<AssetItem<Texture>>, name: string, url: string)
    requires Get(d, name).None?
    ensures LoadedValue(Queued(d, name, url), name).None?
    ensures LoadedValue(LoadAll(Queued(d, name, url)), name) == Some(Texture(url))
    ensures LoadedValue(LoadAll(Queued(Queued(d, name, url), name, url + "?")), name) == Some(Texture(url))
  {
    QueuedEntry(d, name, url, name);
    LoadAllEffect(Queued(d, name, url), name);
    QueueIdempotent(d, name, url, url + "?");
  }

  /** A glTF item once its loader callback has run. */
  function LoadedGltf(item: AssetItem<GltfAsset>, gltf: GltfAsset): AssetItem<GltfAsset> {
    item.(value := Some(gltf), loaded := true)
  }

  /** The asset service object `threeAssets`. */
  class ThreeAssets {
    var texture: Dict<AssetItem<Texture>>
    var gltf: Dict<AssetItem<GltfAsset>>

    constructor ()
      ensures texture == [] && gltf == []
    {
      texture, gltf := [], [];
    }

    /** `queueAsset(type, name, url)`: `type` picks the dictionary; any other type is a TypeError. */
    method QueueAsset(kind: string, name: string, url: string) returns (o: Outcome)
      modifies this
      ensures kind == "texture" ==> o == Pass && texture == Queued(old(texture), name, url) && gltf == old(gltf)
      ensures kind == "gltf" ==> o == Pass && gltf == Queued(old(gltf), name, url) && texture == old(texture)
      ensures kind != "texture" && kind != "gltf" ==> o == Fail(TypeError) && texture == old(texture) && gltf == old(gltf)
    {
      if kind == "texture" {
        texture := Queued(texture, name, url);
        o := Pass;
      } else if kind == "gltf" {
        gltf := Queued(gltf, name, url);
        o := Pass;
      } else {
        o := Fail(TypeError);
      }
    }

    /**
     * `loadQueuedAssets`: loads every texture entry in place, then starts one
     * glTF load per glTF entry, in key order; the glTF entries change only when
     * their callbacks run (`GltfLoaded`).
     */
    method LoadQueuedAssets() returns (requests: seq<GltfRequest>)
      modifies this
      ensures texture == LoadAll(old(texture)) && gltf == old(gltf)
      ensures |requests| == |gltf|
      ensures forall i | 0 <= i < |gltf| :: requests[i] == GltfRequest(gltf[i].key, gltf[i].value.url)
    {
      var j := 0;
      while j < |texture|
        invariant 0 <= j <= |texture| == |old(texture)|
        invariant gltf == old(gltf)
        invariant forall i | 0 <= i < j :: texture[i] == Entry(old(texture)[i].key, LoadedTexture(old(texture)[i].value))
        invariant forall i | j <= i < |texture| :: texture[i] == old(texture)[i]
      {
        var item := texture[j].value;
        texture := texture[j := Entry(texture[j].key, item.(value := Some(Texture(item.url)), loaded := true))];
        j := j + 1;
      }
      requests := [];
      var k := 0;
      while k < |gltf|
        invariant 0 <= k <= |gltf|
        invariant |requests| == k
        invariant forall i | 0 <= i < k :: requests[i] == GltfRequest(gltf[i].key, gltf[i].value.url)
      {
        requests := requests + [GltfRequest(gltf[k].key, gltf[k].value.url)];
        k := k + 1;
      }
    }

    /** The loader callback of one glTF entry: stores the glTF and marks the entry loaded. */
    method GltfLoaded(name: string, asset: GltfAsset)
      requires Get(gltf, name).Some?
      modifies this
      ensures gltf == Put(old(gltf), name, LoadedGltf(old(Get(gltf, name).value), asset))
      ensures texture == old(texture)
      ensures LoadedValue(gltf, name) == Some(asset)
    {
      gltf := Put(gltf, name, LoadedGltf(Get(gltf, name).value, asset));
      GetPut(old(gltf), name, LoadedGltf(old(Get(gltf, name).value), asset), name);
    }

    /** `getLoadedTexture`. */
    function GetLoadedTexture(name: string): (r: Option<Texture>)
      reads this
      ensures r.Some? <==> Get(texture, name).Some? && Get(texture, name).value.value.Some?
    {
      LoadedValue(texture, name)
    }

    /** `getLoadedGltf`. */
    function GetLoadedGltf(name: string): (r: Option<GltfAsset>)
      reads this
      ensures r.Some? <==> Get(gltf, name).Some? && Get(gltf, name).value.value.Some?
    {
      LoadedValue(gltf, name)
    }

    /** `getClonedGltfScene`: a clone of the loaded glTF's scene, or null when there is none yet. */
    function GetClonedGltfScene(name: string): (r: Option<ClonedScene>)
      reads this
      ensures r.None? <==> LoadedValue(gltf, name).None?
      ensures r.Some? ==> r.value == ClonedScene(LoadedValue(gltf, name).value.scene)
    {
      match LoadedValue(gltf, name)
      case None => None
      case Some(g) => Some(ClonedScene(g.scene))
    }
  }
}

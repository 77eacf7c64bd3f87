/**
 * `CModel`: the object a caller holds after loading a `.mdl` file. Loading
 * reads the file into a NUL-terminated copy, keeps that copy, and caches the
 * header fields and the entity lists in the object's own fields.
 */
module MdlObj {
  import opened Wrappers
  import opened Bytes
  import opened Studio
  import opened Entities
  import opened Decoder

  class Model {
    var boneMap: map<int, ModelBone>
    var boneControllers: seq<BoneController>
    var bodyParts: seq<ModelBodyParts>
    var hitBoxSets: seq<HitBoxSet>
    var textures: seq<string>
    var rawData: seq<Byte>
    var modelName: string
    var hullMins: Vector3D
    var hullMaxs: Vector3D
    var mass: Word
    var version: int
    var boneCount: int
    var materialCount: int
    var boneControllerCount: int
    var bodyPartsCount: int
    var sequenceCount: int
    var hitBoxSetCount: int

    /** Every cached field at its in-class initialiser. */
    ghost predicate NothingCached()
      reads this
    {
      boneMap == map[] && boneControllers == [] && bodyParts == [] && hitBoxSets == [] && textures == []
      && modelName == "" && hullMins == ZERO_VECTOR && hullMaxs == ZERO_VECTOR && mass == 0
      && version == -1 && boneCount == 0 && materialCount == 0 && boneControllerCount == 0
      && bodyPartsCount == 0 && sequenceCount == 0 && hitBoxSetCount == 0
    }

    /** The state of a model whose file was never read. */
    ghost predicate Unloaded()
      reads this
    {
      NothingCached() && rawData == []
    }

    /** The cached fields hold exactly what one decode produced. */
    ghost predicate Holds(d: Decoded)
      reads this
    {
      modelName == d.name && version == d.header.version
      && textures == d.textures && materialCount == d.header.numTextures
      && mass == d.header.mass && hullMins == d.header.hullMin && hullMaxs == d.header.hullMax
      && boneCount == d.header.numBones && boneMap == IndexMap(d.bones)
      && boneControllerCount == d.header.numBoneControllers && boneControllers == d.boneControllers
      && bodyPartsCount == d.header.numBodyParts && bodyParts == d.bodyParts
      && sequenceCount == d.header.numLocalSeq
      && hitBoxSetCount == d.header.numHitboxSets && hitBoxSets == d.hitBoxSets
    }

    /** The state after `raw` was kept and decoded. */
    ghost predicate Loaded(raw: seq<Byte>)
      reads this
    {
      rawData == raw && DecodeModel(raw).Success? && Holds(DecodeModel(raw).value)
    }

    /** What every reachable state keeps: each list is as long as the count stored beside it. */
    ghost predicate Valid()
      reads this
    {
      |textures| == Count(materialCount)
      && (forall k :: k in boneMap <==> 0 <= k < boneCount)
      && |boneControllers| == Count(boneControllerCount)
      && |bodyParts| == Count(bodyPartsCount)
      && |hitBoxSets| == Count(hitBoxSetCount)
      && (forall p :: p in bodyParts ==> |p.studioModels| == Count(p.modelCount))
      && (forall p, sm :: p in bodyParts && sm in p.studioModels ==> |sm.eyeBalls| == Count(sm.eyeBallCount))
      && (forall s :: s in hitBoxSets ==> |s.hitBoxes| == Count(s.hitBoxCount))
    }

    /**
     * `CModel(filename)`. `contents` stands for what the file system holds
     * under `filename`: `None` when the file cannot be opened. An empty
     * filename skips loading.
     */
    constructor (filename: string, contents: Option<seq<Byte>>)
      ensures filename == "" ==> Unloaded()
      ensures filename != "" && contents.Some? && DecodeModel(contents.value + [0]).Success? ==>
                Loaded(contents.value + [0])
      ensures filename != "" && !(contents.Some? && DecodeModel(contents.value + [0]).Success?) ==>
                Unloaded()
      ensures Valid()
    {
      new;
      SetDefaults();
      if filename != "" {
        var ok := LoadFile(contents);
        if ok {
          LoadedIsValid(this, contents.value + [0]);
        }
      }
    }

    /** The in-class initialisers of every field. */
    method SetDefaults()
      modifies this
      ensures Unloaded()
    {
      ClearLists();
      ClearScalars();
    }

    /** The initialisers of the containers and the raw data. */
    method ClearLists()
      modifies this`boneMap, this`boneControllers, this`bodyParts, this`hitBoxSets, this`textures,
               this`rawData, this`modelName
      ensures boneMap == map[] && boneControllers == [] && bodyParts == [] && hitBoxSets == []
      ensures textures == [] && rawData == [] && modelName == ""
    {
      boneMap := map[];
      boneControllers := [];
      bodyParts := [];
      hitBoxSets := [];
      textures := [];
      rawData := [];
      modelName := "";
    }

    /** The initialisers of the scalar members: version -1, everything else zero. */
    method ClearScalars()
      modifies this`hullMins, this`hullMaxs, this`mass, this`version, this`boneCount, this`materialCount,
               this`boneControllerCount, this`bodyPartsCount, this`sequenceCount, this`hitBoxSetCount
      ensures hullMins == ZERO_VECTOR && hullMaxs == ZERO_VECTOR && mass == 0 && version == -1
      ensures boneCount == 0 && materialCount == 0 && boneControllerCount == 0 && bodyPartsCount == 0
      ensures sequenceCount == 0 && hitBoxSetCount == 0
    {
      hullMins := ZERO_VECTOR;
      hullMaxs := ZERO_VECTOR;
      mass := 0;
      version := -1;
      boneCount := 0;
      materialCount := 0;
      boneControllerCount := 0;
      bodyPartsCount := 0;
      sequenceCount := 0;
      hitBoxSetCount := 0;
    }

    /**
     * `LoadFile`: the file's bytes plus one NUL become the raw data, which is
     * then decoded. A decode that would read outside the buffer leaves the
     * model as if nothing had been loaded.
     */
    method LoadFile(contents: Option<seq<Byte>>) returns (ok: bool)
      requires Unloaded()
      modifies this
      ensures ok <==> contents.Some? && DecodeModel(contents.value + [0]).Success?
      ensures ok ==> Loaded(contents.value + [0])
      ensures !ok ==> Unloaded()
    {
      if contents.None? {
        return false;
      }
      var cstr := contents.value + [0];
      rawData := cstr;
      ok := CacheModelInfo(cstr);
      if !ok {
        SetDefaults();
      }
    }

    /** `CacheModelInfo`: one pass over the header and the arrays it indexes. */
    method CacheModelInfo(raw: seq<Byte>) returns (ok: bool)
      modifies this`boneMap, this`boneControllers, this`bodyParts, this`hitBoxSets, this`textures,
               this`modelName, this`hullMins, this`hullMaxs, this`mass, this`version, this`boneCount,
               this`materialCount, this`boneControllerCount, this`bodyPartsCount, this`sequenceCount,
               this`hitBoxSetCount
      ensures ok <==> DecodeModel(raw).Success?
      ensures ok ==> Holds(DecodeModel(raw).value)
    {
      var header := ReadHeader(raw);
      if header.Failure? {
        return false;
      }
      var h := header.value;
      ok := CacheName(raw);
      if !ok {
        return;
      }
      ghost var bones;
      ok, bones := CacheSections(raw, h);
      if !ok {
        return;
      }
      ghost var d := Decoded(h, modelName, textures, bones, boneControllers, bodyParts, hitBoxSets);
      assert Holds(d);
      assert DecodeModel(raw) == Success(d);
    }

    /** Everything `CacheModelInfo` caches after the name, in the order it caches it. */
    method CacheSections(raw: seq<Byte>, h: Header) returns (ok: bool, ghost bones: seq<ModelBone>)
      modifies this`boneMap, this`boneControllers, this`bodyParts, this`hitBoxSets, this`textures,
               this`hullMins, this`hullMaxs, this`mass, this`version, this`boneCount,
               this`materialCount, this`boneControllerCount, this`bodyPartsCount, this`sequenceCount,
               this`hitBoxSetCount
      ensures ok <==> Textures(raw, h).Success? && Bones(raw, h).Success? && BoneControllers(raw, h).Success?
                      && BodyParts(raw, h).Success? && HitBoxSets(raw, h).Success?
      ensures ok ==> && version == h.version && textures == Textures(raw, h).value && materialCount == h.numTextures
                     && mass == h.mass && hullMins == h.hullMin && hullMaxs == h.hullMax
                     && bones == Bones(raw, h).value && boneMap == IndexMap(bones) && boneCount == h.numBones
                     && boneControllers == BoneControllers(raw, h).value
                     && boneControllerCount == h.numBoneControllers
                     && bodyParts == BodyParts(raw, h).value && bodyPartsCount == h.numBodyParts
                     && sequenceCount == h.numLocalSeq
                     && hitBoxSets == HitBoxSets(raw, h).value && hitBoxSetCount == h.numHitboxSets
    {
      version := h.version;
      ok := CacheTextures(raw, h);
      if !ok {
        return ok, [];
      }
      CacheHull(h);
      ok, bones := CacheArrays(raw, h);
    }

    /** The second half of `CacheModelInfo`: the bone, controller, body part and hitbox set arrays. */
    method CacheArrays(raw: seq<Byte>, h: Header) returns (ok: bool, ghost bones: seq<ModelBone>)
      modifies this`boneMap, this`boneCount, this`boneControllers, this`boneControllerCount,
               this`bodyParts, this`bodyPartsCount, this`sequenceCount, this`hitBoxSets, this`hitBoxSetCount
      ensures ok <==> Bones(raw, h).Success? && BoneControllers(raw, h).Success? && BodyParts(raw, h).Success?
                      && HitBoxSets(raw, h).Success?
      ensures ok ==> && bones == Bones(raw, h).value && boneMap == IndexMap(bones) && boneCount == h.numBones
                     && boneControllers == BoneControllers(raw, h).value
                     && boneControllerCount == h.numBoneControllers
                     && bodyParts == BodyParts(raw, h).value && bodyPartsCount == h.numBodyParts
                     && sequenceCount == h.numLocalSeq
                     && hitBoxSets == HitBoxSets(raw, h).value && hitBoxSetCount == h.numHitboxSets
    {
      ok, bones := CacheBones(raw, h);
      if !ok {
        return;
      }
      ok := CacheBoneControllers(raw, h);
      if !ok {
        return;
      }
      ok := CacheBodyPartsList(raw, h);
      if !ok {
        return;
      }
      sequenceCount := h.numLocalSeq;
      ok := CacheHitBoxSets(raw, h);
    }

    /** The name copy of `CacheModelInfo`, lower-cased in place. */
    method CacheName(raw: seq<Byte>) returns (ok: bool)
      requires |raw| >= STUDIOHDR_SIZE
      modifies this`modelName
      ensures ok <==> ModelName(raw).Success?
      ensures ok ==> modelName == ModelName(raw).value
    {
      var name := HeaderName(raw);
      if name.Failure? {
        return false;
      }
      var lowered := new char[|name.value|](k requires 0 <= k < |name.value| => name.value[k]);
      assert lowered[..] == name.value;
      ToLower(lowered);
      modelName := lowered[..];
      ok := true;
    }

    /** The header scalars `CacheModelInfo` copies after the textures. */
    method CacheHull(h: Header)
      modifies this`mass, this`hullMins, this`hullMaxs
      ensures mass == h.mass && hullMins == h.hullMin && hullMaxs == h.hullMax
    {
      mass := h.mass;
      hullMins := h.hullMin;
      hullMaxs := h.hullMax;
    }

    /** The texture loop of `CacheModelInfo`; it runs only for a count of at least 1. */
    method CacheTextures(raw: seq<Byte>, h: Header) returns (ok: bool)
      modifies this`textures, this`materialCount
      ensures ok <==> Textures(raw, h).Success?
      ensures ok ==> textures == Textures(raw, h).value && materialCount == h.numTextures
    {
      var matCount := h.numTextures;
      var names: Result<seq<string>> := Success([]);
      if matCount >= 1 {
        names := CollectLoop(matCount, TextureEntries(raw, h));
      }
      if names.Failure? {
        return false;
      }
      textures := names.value;
      materialCount := matCount;
      ok := true;
    }

    /** The bone loop of `CacheModelInfo`: bone `i` is inserted under key `i`. */
    method CacheBones(raw: seq<Byte>, h: Header) returns (ok: bool, ghost bones: seq<ModelBone>)
      modifies this`boneMap, this`boneCount
      ensures boneCount == h.numBones
      ensures ok <==> Bones(raw, h).Success?
      ensures ok ==> bones == Bones(raw, h).value && boneMap == IndexMap(bones)
    {
      boneCount := h.numBones;
      var r, inserted := CollectMapLoop(boneCount, BoneEntries(raw, h));
      if r.Failure? {
        return false, [];
      }
      boneMap := inserted;
      ok, bones := true, r.value;
    }

    /** The bone controller loop of `CacheModelInfo`. */
    method CacheBoneControllers(raw: seq<Byte>, h: Header) returns (ok: bool)
      modifies this`boneControllers, this`boneControllerCount
      ensures boneControllerCount == h.numBoneControllers
      ensures ok <==> BoneControllers(raw, h).Success?
      ensures ok ==> boneControllers == BoneControllers(raw, h).value
    {
      boneControllerCount := h.numBoneControllers;
      var r := CollectLoop(boneControllerCount, BoneControllerEntries(raw, h));
      if r.Failure? {
        return false;
      }
      boneControllers := r.value;
      ok := true;
    }

    /** The body part loop of `CacheModelInfo`; each part is decoded as `CModelBodyParts::Cache` does. */
    method CacheBodyPartsList(raw: seq<Byte>, h: Header) returns (ok: bool)
      modifies this`bodyParts, this`bodyPartsCount
      ensures bodyPartsCount == h.numBodyParts
      ensures ok <==> BodyParts(raw, h).Success?
      ensures ok ==> bodyParts == BodyParts(raw, h).value
    {
      bodyPartsCount := h.numBodyParts;
      var r := CollectLoop(bodyPartsCount, BodyPartEntries(raw, h));
      if r.Failure? {
        return false;
      }
      bodyParts := r.value;
      ok := true;
    }

    /** The hitbox set loop of `CacheModelInfo`; each set is decoded as `CHitBoxSet::Cache` does. */
    method CacheHitBoxSets(raw: seq<Byte>, h: Header) returns (ok: bool)
      modifies this`hitBoxSets, this`hitBoxSetCount
      ensures hitBoxSetCount == h.numHitboxSets
      ensures ok <==> HitBoxSets(raw, h).Success?
      ensures ok ==> hitBoxSets == HitBoxSets(raw, h).value
    {
      hitBoxSetCount := h.numHitboxSets;
      var r := CollectLoop(hitBoxSetCount, HitBoxSetEntries(raw, h));
      if r.Failure? {
        return false;
      }
      hitBoxSets := r.value;
      ok := true;
    }

    /** `Bone(iIndex)`: the cached bone with that index, or none. */
    function Bone(index: int): (r: Option<ModelBone>)
      reads this
      ensures r.Some? <==> index in boneMap
      ensures r.Some? ==> r.value == boneMap[index]
    {
      if index in boneMap then Some(boneMap[index]) else None
    }

    /** `Texture(iIndex)`: the material name at that position, or none. */
    function Texture(index: int): (r: Option<string>)
      reads this
      ensures r.Some? <==> 0 <= index < |textures|
      ensures r.Some? ==> r.value == textures[index]
    {
      if 0 <= index < |textures| then Some(textures[index]) else None
    }

    function GetMaterials(): (r: seq<string>)
      reads this
    {
      textures
    }

    function GetBoneControllers(): (r: seq<BoneController>)
      reads this
    {
      boneControllers
    }

    function GetBodyParts(): (r: seq<ModelBodyParts>)
      reads this
    {
      bodyParts
    }

    function GetHitBoxSets(): (r: seq<HitBoxSet>)
      reads this
    {
      hitBoxSets
    }

    function GetRawData(): (r: seq<Byte>)
      reads this
    {
      rawData
    }

    function Name(): (r: string)
      reads this
    {
      modelName
    }

    function HullMins(): (r: Vector3D)
      reads this
    {
      hullMins
    }

    function HullMaxs(): (r: Vector3D)
      reads this
    {
      hullMaxs
    }

    function MaterialCount(): (r: int)
      reads this
    {
      materialCount
    }

    function Mass(): (r: Word)
      reads this
    {
      mass
    }
  }

  /** A loaded model keeps every count in step with the list beside it. */
  lemma {:induction false} LoadedIsValid(m: Model, raw: seq<Byte>)
    requires m.Loaded(raw)
    ensures m.Valid()
  {
    DecodeModelContents(raw);
    var h := DecodeModel(raw).value.header;
    forall p | p in m.bodyParts
      ensures |p.studioModels| == Count(p.modelCount)
      ensures forall sm :: sm in p.studioModels ==> |sm.eyeBalls| == Count(sm.eyeBallCount)
    {
      var i :| 0 <= i < |m.bodyParts| && m.bodyParts[i] == p;
      var rec := PBodyPart(raw, h, i).value;
      BodyPartsAtContents(raw, rec);
      forall sm | sm in p.studioModels
        ensures |sm.eyeBalls| == Count(sm.eyeBallCount)
      {
        var j :| 0 <= j < |p.studioModels| && p.studioModels[j] == sm;
        StudioModelAtContents(raw, PModel(raw, rec, j).value);
      }
    }
    forall s | s in m.hitBoxSets
      ensures |s.hitBoxes| == Count(s.hitBoxCount)
    {
      var i :| 0 <= i < |m.hitBoxSets| && m.hitBoxSets[i] == s;
      HitBoxSetAtContents(raw, PHitboxSet(raw, h, i).value);
    }
  }

  /**
   * After a load, `Bone(i)` finds exactly the indices 0 .. numbones-1 and
   * `Texture(i)` exactly 0 .. numtextures-1, each the entity decoded from
   * record `i` of its header array; every other index gives none.
   */
  lemma {:induction false} LoadedLookups(m: Model, raw: seq<Byte>)
    requires m.Loaded(raw)
    ensures |raw| >= STUDIOHDR_SIZE
    ensures var h := ReadHeader(raw).value;
            && (forall i :: m.Bone(i).Some? <==> 0 <= i < Count(h.numBones))
            && (forall i :: 0 <= i < Count(h.numBones) ==>
                  PBone(raw, h, i).Success? && Success(m.Bone(i).value) == BoneAt(raw, PBone(raw, h, i).value))
            && (forall i :: m.Texture(i).Some? <==> 0 <= i < Count(h.numTextures))
            && (forall i :: 0 <= i < Count(h.numTextures) ==>
                  PTexture(raw, h, i).Success? && Success(m.Texture(i).value) == PszName(raw, PTexture(raw, h, i).value))
  {
    DecodeModelContents(raw);
  }
}

/**
 * The on-disk layout of a studio model file and the self-relative accessors of
 * the record structs: record sizes and field positions for the 32-bit layout,
 * the header reader, the bounds-checked resolver through which every record
 * and string is reached, and the small index helpers.
 *
 * Header-level arrays start at `header + index`; every nested array and every
 * name string is measured from the address of the record that holds the offset.
 * The header always sits at buffer position 0.
 */
module Studio {
  import opened Wrappers
  import opened Bytes

  /** `Vector`: three floats, kept as the three words they are stored as. */
  datatype Vector = Vector(x: Word, y: Word, z: Word)

  // Record sizes, with 4-byte ints, floats and pointers.
  const STUDIOHDR_SIZE := 408
  const BONE_SIZE := 216
  const BONECONTROLLER_SIZE := 56
  const BBOX_SIZE := 68
  const HITBOXSET_SIZE := 12
  const BODYPARTS_SIZE := 16
  const MODEL_SIZE := 148
  const EYEBALL_SIZE := 172
  const TEXTURE_SIZE := 64
  const SEQDESC_SIZE := 212
  const ANIMDESC_SIZE := 100

  // studiohdr_t
  const HDR_VERSION := 4
  const HDR_NAME := 12
  const HDR_NAME_LENGTH := 64
  const HDR_HULL_MIN := 104
  const HDR_HULL_MAX := 116
  const HDR_NUMBONES := 156
  const HDR_BONEINDEX := 160
  const HDR_NUMBONECONTROLLERS := 164
  const HDR_BONECONTROLLERINDEX := 168
  const HDR_NUMHITBOXSETS := 172
  const HDR_HITBOXSETINDEX := 176
  const HDR_NUMLOCALANIM := 180
  const HDR_LOCALANIMINDEX := 184
  const HDR_NUMLOCALSEQ := 188
  const HDR_LOCALSEQINDEX := 192
  const HDR_NUMTEXTURES := 204
  const HDR_TEXTUREINDEX := 208
  const HDR_NUMBODYPARTS := 232
  const HDR_BODYPARTINDEX := 236
  const HDR_MASS := 328

  // mstudiobone_t
  const BONE_NAMEINDEX := 0
  const BONE_PARENT := 4
  const BONE_POS := 32
  const BONE_FLAGS := 160
  const BONE_CONTENTS := 180

  // mstudiobonecontroller_t
  const CONTROLLER_BONE := 0
  const CONTROLLER_TYPE := 4
  const CONTROLLER_START := 8
  const CONTROLLER_END := 12
  const CONTROLLER_REST := 16
  const CONTROLLER_INPUTFIELD := 20

  // mstudiobbox_t
  const BBOX_BONE := 0
  const BBOX_GROUP := 4
  const BBOX_BBMIN := 8
  const BBOX_BBMAX := 20
  const BBOX_NAMEINDEX := 32

  // mstudiohitboxset_t
  const HITBOXSET_NAMEINDEX := 0
  const HITBOXSET_NUMHITBOXES := 4
  const HITBOXSET_HITBOXINDEX := 8

  // mstudiobodyparts_t
  const BODYPARTS_NAMEINDEX := 0
  const BODYPARTS_NUMMODELS := 4
  const BODYPARTS_BASE := 8
  const BODYPARTS_MODELINDEX := 12

  // mstudiomodel_t
  const MODEL_NAME := 0
  const MODEL_TYPE := 64
  const MODEL_BOUNDINGRADIUS := 68
  const MODEL_NUMMESHES := 72
  const MODEL_MESHINDEX := 76
  const MODEL_NUMVERTICES := 80
  const MODEL_VERTEXINDEX := 84
  const MODEL_TANGENTSINDEX := 88
  const MODEL_NUMATTACHMENTS := 92
  const MODEL_ATTACHMENTINDEX := 96
  const MODEL_NUMEYEBALLS := 100
  const MODEL_EYEBALLINDEX := 104

  // mstudioeyeball_t
  const EYEBALL_NAMEINDEX := 0
  const EYEBALL_BONE := 4
  const EYEBALL_ORG := 8
  const EYEBALL_ZOFFSET := 20
  const EYEBALL_RADIUS := 24
  const EYEBALL_UP := 28
  const EYEBALL_FORWARD := 40
  const EYEBALL_TEXTURE := 52

  // mstudiotexture_t
  const TEXTURE_NAMEINDEX := 0

  // the name offsets that may be 0 for "no name"
  const ACTIVITYMODIFIER_NAMEINDEX := 0
  const STUDIOHDR2_NAMEINDEX := 20

  /** The three words of a `Vector` stored at `pos`. */
  function ReadVector(buf: seq<Byte>, pos: int): (v: Vector)
    requires 0 <= pos && pos + 12 <= |buf|
  {
    Vector(ReadU32(buf, pos), ReadU32(buf, pos + 4), ReadU32(buf, pos + 8))
  }

  /** The 12 bytes a `Vector` is stored as. */
  function EncodeVector(v: Vector): (bs: seq<Byte>)
    ensures |bs| == 12
  {
    EncodeU32(v.x) + EncodeU32(v.y) + EncodeU32(v.z)
  }

  /** A vector is copied bit for bit: writing its words back gives the 12 bytes it was read from. */
  lemma {:induction false} ReadVectorEncodes(buf: seq<Byte>, pos: int)
    requires 0 <= pos && pos + 12 <= |buf|
    ensures EncodeVector(ReadVector(buf, pos)) == buf[pos..pos + 12]
  {
    EncodeReadU32(buf, pos);
    EncodeReadU32(buf, pos + 4);
    EncodeReadU32(buf, pos + 8);
    assert buf[pos..pos + 12] == buf[pos..pos + 4] + buf[pos + 4..pos + 8] + buf[pos + 8..pos + 12];
  }

  /** The 12 bytes of a vector read back as that vector, wherever they sit. */
  lemma {:induction false} ReadVectorOf(buf: seq<Byte>, pos: int, v: Vector)
    requires 0 <= pos && pos + 12 <= |buf| && buf[pos..pos + 12] == EncodeVector(v)
    ensures ReadVector(buf, pos) == v
  {
    var pre, post := buf[..pos], buf[pos + 12..];
    assert buf == pre + EncodeVector(v) + post;
    assert buf == pre + EncodeU32(v.x) + (EncodeU32(v.y) + EncodeU32(v.z) + post);
    assert buf == (pre + EncodeU32(v.x)) + EncodeU32(v.y) + (EncodeU32(v.z) + post);
    assert buf == (pre + EncodeU32(v.x) + EncodeU32(v.y)) + EncodeU32(v.z) + post;
    ReadEncodeU32(v.x, pre, EncodeU32(v.y) + EncodeU32(v.z) + post);
    ReadEncodeU32(v.y, pre + EncodeU32(v.x), EncodeU32(v.z) + post);
    ReadEncodeU32(v.z, pre + EncodeU32(v.x) + EncodeU32(v.y), post);
  }

  /** A vector read inside a copy of `e` at `p` reads what it reads in `e` itself. */
  lemma {:induction false} ReadVectorWithin(buf: seq<Byte>, p: int, e: seq<Byte>, off: int)
    requires 0 <= p && p + |e| <= |buf| && buf[p..p + |e|] == e
    requires 0 <= off && off + 12 <= |e|
    ensures ReadVector(buf, p + off) == ReadVector(e, off)
  {
    ReadWithin(buf, p, e, off);
    ReadWithin(buf, p, e, off + 4);
    ReadWithin(buf, p, e, off + 8);
  }

  /** The `studiohdr_t` fields the decoder reads. */
  datatype Header = Header(
    version: int,
    hullMin: Vector,
    hullMax: Vector,
    mass: Word,
    numBones: int, boneIndex: int,
    numBoneControllers: int, boneControllerIndex: int,
    numHitboxSets: int, hitboxSetIndex: int,
    numLocalAnim: int, localAnimIndex: int,
    numLocalSeq: int, localSeqIndex: int,
    numTextures: int, textureIndex: int,
    numBodyParts: int, bodyPartIndex: int)

  /**
   * The header at the start of the buffer. Neither the magic id nor the
   * version is checked: the only way to fail is a buffer too short to hold
   * the header.
   */
  function ReadHeader(buf: seq<Byte>): (r: Result<Header>)
    ensures r.Success? <==> |buf| >= STUDIOHDR_SIZE
    ensures r.Failure? ==> r.error == Truncated
  {
    if |buf| < STUDIOHDR_SIZE then Failure(Truncated)
    else
      Success(Header(
        ReadI32(buf, HDR_VERSION),
        ReadVector(buf, HDR_HULL_MIN),
        ReadVector(buf, HDR_HULL_MAX),
        ReadU32(buf, HDR_MASS),
        ReadI32(buf, HDR_NUMBONES), ReadI32(buf, HDR_BONEINDEX),
        ReadI32(buf, HDR_NUMBONECONTROLLERS), ReadI32(buf, HDR_BONECONTROLLERINDEX),
        ReadI32(buf, HDR_NUMHITBOXSETS), ReadI32(buf, HDR_HITBOXSETINDEX),
        ReadI32(buf, HDR_NUMLOCALANIM), ReadI32(buf, HDR_LOCALANIMINDEX),
        ReadI32(buf, HDR_NUMLOCALSEQ), ReadI32(buf, HDR_LOCALSEQINDEX),
        ReadI32(buf, HDR_NUMTEXTURES), ReadI32(buf, HDR_TEXTUREINDEX),
        ReadI32(buf, HDR_NUMBODYPARTS), ReadI32(buf, HDR_BODYPARTINDEX)))
  }

  /** The header depends on the first STUDIOHDR_SIZE bytes only. */
  lemma {:induction false} HeaderReadsOnlyHeader(buf: seq<Byte>, other: seq<Byte>)
    requires |buf| >= STUDIOHDR_SIZE && |other| >= STUDIOHDR_SIZE
    requires buf[..STUDIOHDR_SIZE] == other[..STUDIOHDR_SIZE]
    ensures ReadHeader(buf) == ReadHeader(other)
  {
    forall p | 0 <= p && p + 4 <= STUDIOHDR_SIZE
      ensures ReadU32(buf, p) == ReadU32(other, p)
    {
      assert buf[p] == buf[..STUDIOHDR_SIZE][p] == other[p];
      assert buf[p + 1] == buf[..STUDIOHDR_SIZE][p + 1] == other[p + 1];
      assert buf[p + 2] == buf[..STUDIOHDR_SIZE][p + 2] == other[p + 2];
      assert buf[p + 3] == buf[..STUDIOHDR_SIZE][p + 3] == other[p + 3];
    }
  }

  /** Whether a header can be stored: every `int` field fits a C++ `int`. */
  predicate HeaderFits(h: Header)
  {
    && INT32_MIN <= h.version < INT32_LIMIT
    && INT32_MIN <= h.numBones < INT32_LIMIT && INT32_MIN <= h.boneIndex < INT32_LIMIT
    && INT32_MIN <= h.numBoneControllers < INT32_LIMIT && INT32_MIN <= h.boneControllerIndex < INT32_LIMIT
    && INT32_MIN <= h.numHitboxSets < INT32_LIMIT && INT32_MIN <= h.hitboxSetIndex < INT32_LIMIT
    && INT32_MIN <= h.numLocalAnim < INT32_LIMIT && INT32_MIN <= h.localAnimIndex < INT32_LIMIT
    && INT32_MIN <= h.numLocalSeq < INT32_LIMIT && INT32_MIN <= h.localSeqIndex < INT32_LIMIT
    && INT32_MIN <= h.numTextures < INT32_LIMIT && INT32_MIN <= h.textureIndex < INT32_LIMIT
    && INT32_MIN <= h.numBodyParts < INT32_LIMIT && INT32_MIN <= h.bodyPartIndex < INT32_LIMIT
  }

  /** Bytes 0 .. 156 of `studiohdr_t`: id, version, checksum, name, length, eye and illum positions, the hull, the view box and flags. */
  function HeaderFront(h: Header): (bs: seq<Byte>)
    requires HeaderFits(h)
    ensures |bs| == HDR_NUMBONES
  {
    Zeros(4) + EncodeI32(h.version) + Zeros(96) + EncodeVector(h.hullMin) + EncodeVector(h.hullMax) + Zeros(28)
  }

  /** Bytes 156 .. 196: the bone, controller, hitbox set, local animation and local sequence count/index pairs. */
  function HeaderCounts(h: Header): (bs: seq<Byte>)
    requires HeaderFits(h)
    ensures |bs| == 40
  {
    EncodeI32(h.numBones) + EncodeI32(h.boneIndex)
      + EncodeI32(h.numBoneControllers) + EncodeI32(h.boneControllerIndex)
      + EncodeI32(h.numHitboxSets) + EncodeI32(h.hitboxSetIndex)
      + EncodeI32(h.numLocalAnim) + EncodeI32(h.localAnimIndex)
      + EncodeI32(h.numLocalSeq) + EncodeI32(h.localSeqIndex)
  }

  /** Bytes 196 .. 240: the texture and body part count/index pairs among the fields the decoder skips. */
  function HeaderTables(h: Header): (bs: seq<Byte>)
    requires HeaderFits(h)
    ensures |bs| == 44
  {
    Zeros(8) + EncodeI32(h.numTextures) + EncodeI32(h.textureIndex) + Zeros(20)
      + EncodeI32(h.numBodyParts) + EncodeI32(h.bodyPartIndex)
  }

  /** Bytes 240 .. 408: the mass at 328 among the fields the decoder skips. */
  function HeaderBack(h: Header): (bs: seq<Byte>)
    ensures |bs| == STUDIOHDR_SIZE - 240
  {
    Zeros(88) + EncodeU32(h.mass) + Zeros(76)
  }

  /** The 408-byte `studiohdr_t` holding `h`, in struct order; every field the decoder does not read is zero. */
  function EncodeHeader(h: Header): (bs: seq<Byte>)
    requires HeaderFits(h)
    ensures |bs| == STUDIOHDR_SIZE
  {
    HeaderFront(h) + HeaderCounts(h) + HeaderTables(h) + HeaderBack(h)
  }

  /** The version and hull of the front part read back as written. */
  lemma {:induction false} HeaderFrontFields(h: Header)
    requires HeaderFits(h)
    ensures var e := HeaderFront(h);
            ReadI32(e, HDR_VERSION) == h.version
            && ReadVector(e, HDR_HULL_MIN) == h.hullMin && ReadVector(e, HDR_HULL_MAX) == h.hullMax
  {
    var f := HeaderFront(h);
    assert f[4..8] == EncodeI32(h.version);
    assert f[104..116] == EncodeVector(h.hullMin) && f[116..128] == EncodeVector(h.hullMax);
    ReadI32Of(f, HDR_VERSION, h.version);
    ReadVectorOf(f, HDR_HULL_MIN, h.hullMin);
    ReadVectorOf(f, HDR_HULL_MAX, h.hullMax);
  }

  /** The bone, controller and hitbox set pairs at 156 .. 180 read back as written. */
  lemma {:induction false} HeaderBonePairsFields(h: Header)
    requires HeaderFits(h)
    ensures var e := HeaderCounts(h);
            && ReadI32(e, 0) == h.numBones && ReadI32(e, 4) == h.boneIndex
            && ReadI32(e, 8) == h.numBoneControllers && ReadI32(e, 12) == h.boneControllerIndex
            && ReadI32(e, 16) == h.numHitboxSets && ReadI32(e, 20) == h.hitboxSetIndex
  {
    var e := HeaderCounts(h);
    ReadI32Bytes(e, 0, h.numBones);
    ReadI32Bytes(e, 4, h.boneIndex);
    ReadI32Bytes(e, 8, h.numBoneControllers);
    ReadI32Bytes(e, 12, h.boneControllerIndex);
    ReadI32Bytes(e, 16, h.numHitboxSets);
    ReadI32Bytes(e, 20, h.hitboxSetIndex);
  }

  /** The local animation and local sequence pairs at 180 .. 196 read back as written. */
  lemma {:induction false} HeaderLocalPairsFields(h: Header)
    requires HeaderFits(h)
    ensures var e := HeaderCounts(h);
            && ReadI32(e, 24) == h.numLocalAnim && ReadI32(e, 28) == h.localAnimIndex
            && ReadI32(e, 32) == h.numLocalSeq && ReadI32(e, 36) == h.localSeqIndex
  {
    var e := HeaderCounts(h);
    ReadI32Bytes(e, 24, h.numLocalAnim);
    ReadI32Bytes(e, 28, h.localAnimIndex);
    ReadI32Bytes(e, 32, h.numLocalSeq);
    ReadI32Bytes(e, 36, h.localSeqIndex);
  }

  /** The five count/index pairs at 156 .. 196 read back as written. */
  lemma {:induction false} HeaderCountsFields(h: Header)
    requires HeaderFits(h)
    ensures var e := HeaderCounts(h);
            && ReadI32(e, 0) == h.numBones && ReadI32(e, 4) == h.boneIndex
            && ReadI32(e, 8) == h.numBoneControllers && ReadI32(e, 12) == h.boneControllerIndex
            && ReadI32(e, 16) == h.numHitboxSets && ReadI32(e, 20) == h.hitboxSetIndex
            && ReadI32(e, 24) == h.numLocalAnim && ReadI32(e, 28) == h.localAnimIndex
            && ReadI32(e, 32) == h.numLocalSeq && ReadI32(e, 36) == h.localSeqIndex
  {
    HeaderBonePairsFields(h);
    HeaderLocalPairsFields(h);
  }

  /** The texture and body part pairs at 196 .. 240 read back as written. */
  lemma {:induction false} HeaderTablesFields(h: Header)
    requires HeaderFits(h)
    ensures var e := HeaderTables(h);
            && ReadI32(e, 8) == h.numTextures && ReadI32(e, 12) == h.textureIndex
            && ReadI32(e, 36) == h.numBodyParts && ReadI32(e, 40) == h.bodyPartIndex
  {
    var t := HeaderTables(h);
    ReadI32Bytes(t, 8, h.numTextures);
    ReadI32Bytes(t, 12, h.textureIndex);
    ReadI32Bytes(t, 36, h.numBodyParts);
    ReadI32Bytes(t, 40, h.bodyPartIndex);
  }

  /**
   * The fields of an encoded header read back as the values written into it,
   * each at its `studiohdr_t` offset.
   */
  lemma {:induction false} HeaderRecordFields(h: Header)
    requires HeaderFits(h)
    ensures var e := EncodeHeader(h);
            && ReadI32(e, HDR_VERSION) == h.version
            && ReadVector(e, HDR_HULL_MIN) == h.hullMin && ReadVector(e, HDR_HULL_MAX) == h.hullMax
            && ReadI32(e, HDR_NUMBONES) == h.numBones && ReadI32(e, HDR_BONEINDEX) == h.boneIndex
            && ReadI32(e, HDR_NUMBONECONTROLLERS) == h.numBoneControllers
            && ReadI32(e, HDR_BONECONTROLLERINDEX) == h.boneControllerIndex
            && ReadI32(e, HDR_NUMHITBOXSETS) == h.numHitboxSets && ReadI32(e, HDR_HITBOXSETINDEX) == h.hitboxSetIndex
            && ReadI32(e, HDR_NUMLOCALANIM) == h.numLocalAnim && ReadI32(e, HDR_LOCALANIMINDEX) == h.localAnimIndex
            && ReadI32(e, HDR_NUMLOCALSEQ) == h.numLocalSeq && ReadI32(e, HDR_LOCALSEQINDEX) == h.localSeqIndex
            && ReadI32(e, HDR_NUMTEXTURES) == h.numTextures && ReadI32(e, HDR_TEXTUREINDEX) == h.textureIndex
            && ReadI32(e, HDR_NUMBODYPARTS) == h.numBodyParts && ReadI32(e, HDR_BODYPARTINDEX) == h.bodyPartIndex
            && ReadU32(e, HDR_MASS) == h.mass
  {
    HeaderRoundTrip(h, []);
    assert EncodeHeader(h) + [] == EncodeHeader(h);
  }

  /** The version and hull of a buffer that starts with an encoded front part. */
  lemma {:induction false} HeaderFrontAt(buf: seq<Byte>, h: Header)
    requires HeaderFits(h) && |buf| >= STUDIOHDR_SIZE && buf[..HDR_NUMBONES] == HeaderFront(h)
    ensures ReadI32(buf, HDR_VERSION) == h.version
    ensures ReadVector(buf, HDR_HULL_MIN) == h.hullMin && ReadVector(buf, HDR_HULL_MAX) == h.hullMax
  {
    HeaderFrontFields(h);
    assert buf[0..HDR_NUMBONES] == HeaderFront(h);
    ReadWithin(buf, 0, HeaderFront(h), HDR_VERSION);
    ReadVectorWithin(buf, 0, HeaderFront(h), HDR_HULL_MIN);
    ReadVectorWithin(buf, 0, HeaderFront(h), HDR_HULL_MAX);
  }

  /** The five count/index pairs of a buffer holding an encoded counts part at 156. */
  lemma {:induction false} HeaderCountsAt(buf: seq<Byte>, h: Header)
    requires HeaderFits(h) && |buf| >= STUDIOHDR_SIZE && buf[HDR_NUMBONES..196] == HeaderCounts(h)
    ensures ReadI32(buf, HDR_NUMBONES) == h.numBones && ReadI32(buf, HDR_BONEINDEX) == h.boneIndex
    ensures ReadI32(buf, HDR_NUMBONECONTROLLERS) == h.numBoneControllers
    ensures ReadI32(buf, HDR_BONECONTROLLERINDEX) == h.boneControllerIndex
    ensures ReadI32(buf, HDR_NUMHITBOXSETS) == h.numHitboxSets && ReadI32(buf, HDR_HITBOXSETINDEX) == h.hitboxSetIndex
    ensures ReadI32(buf, HDR_NUMLOCALANIM) == h.numLocalAnim && ReadI32(buf, HDR_LOCALANIMINDEX) == h.localAnimIndex
    ensures ReadI32(buf, HDR_NUMLOCALSEQ) == h.numLocalSeq && ReadI32(buf, HDR_LOCALSEQINDEX) == h.localSeqIndex
  {
    HeaderCountsFields(h);
    var c := HeaderCounts(h);
    ReadWithin(buf, HDR_NUMBONES, c, 0);
    ReadWithin(buf, HDR_NUMBONES, c, 4);
    ReadWithin(buf, HDR_NUMBONES, c, 8);
    ReadWithin(buf, HDR_NUMBONES, c, 12);
    ReadWithin(buf, HDR_NUMBONES, c, 16);
    ReadWithin(buf, HDR_NUMBONES, c, 20);
    ReadWithin(buf, HDR_NUMBONES, c, 24);
    ReadWithin(buf, HDR_NUMBONES, c, 28);
    ReadWithin(buf, HDR_NUMBONES, c, 32);
    ReadWithin(buf, HDR_NUMBONES, c, 36);
  }

  /** The texture and body part pairs and the mass of a buffer holding the encoded tables and back parts. */
  lemma {:induction false} HeaderTablesAt(buf: seq<Byte>, h: Header)
    requires HeaderFits(h) && |buf| >= STUDIOHDR_SIZE
    requires buf[196..240] == HeaderTables(h) && buf[240..STUDIOHDR_SIZE] == HeaderBack(h)
    ensures ReadI32(buf, HDR_NUMTEXTURES) == h.numTextures && ReadI32(buf, HDR_TEXTUREINDEX) == h.textureIndex
    ensures ReadI32(buf, HDR_NUMBODYPARTS) == h.numBodyParts && ReadI32(buf, HDR_BODYPARTINDEX) == h.bodyPartIndex
    ensures ReadU32(buf, HDR_MASS) == h.mass
  {
    HeaderTablesFields(h);
    var t := HeaderTables(h);
    ReadWithin(buf, 196, t, 8);
    ReadWithin(buf, 196, t, 12);
    ReadWithin(buf, 196, t, 36);
    ReadWithin(buf, 196, t, 40);
    var b := HeaderBack(h);
    assert b[88..92] == EncodeU32(h.mass);
    ReadU32Of(b, 88, h.mass);
    ReadWithin(buf, 240, b, 88);
  }

  /** A buffer that starts with the four parts of an encoded header reads back that header. */
  lemma {:induction false} HeaderAtOf(buf: seq<Byte>, h: Header)
    requires HeaderFits(h) && |buf| >= STUDIOHDR_SIZE
    requires buf[..HDR_NUMBONES] == HeaderFront(h) && buf[HDR_NUMBONES..196] == HeaderCounts(h)
    requires buf[196..240] == HeaderTables(h) && buf[240..STUDIOHDR_SIZE] == HeaderBack(h)
    ensures ReadHeader(buf) == Success(h)
  {
    HeaderFrontAt(buf, h);
    HeaderCountsAt(buf, h);
    HeaderTablesAt(buf, h);
  }

  /**
   * Every header field is read from its own offset in `studiohdr_t`: the
   * header written for any header, followed by anything, reads back as
   * that header.
   */
  lemma {:induction false} HeaderRoundTrip(h: Header, post: seq<Byte>)
    requires HeaderFits(h)
    ensures ReadHeader(EncodeHeader(h) + post) == Success(h)
  {
    var buf := EncodeHeader(h) + post;
    assert buf == HeaderFront(h) + (HeaderCounts(h) + (HeaderTables(h) + (HeaderBack(h) + post)));
    assert buf[..HDR_NUMBONES] == HeaderFront(h);
    assert buf[HDR_NUMBONES..196] == HeaderCounts(h);
    assert buf[196..240] == HeaderTables(h);
    assert buf[240..STUDIOHDR_SIZE] == HeaderBack(h);
    HeaderAtOf(buf, h);
  }

  /**
   * The name field: the C string at the field's start. The C++ copies it
   * through a `char*`, so a name without a NUL inside its 64 bytes runs on
   * into the fields that follow.
   */
  function HeaderName(buf: seq<Byte>): (r: Result<string>)
    requires |buf| >= STUDIOHDR_SIZE
    ensures r.Success? <==> exists k :: HDR_NAME <= k < |buf| && buf[k] == 0
    ensures r.Success? ==> HDR_NAME + |r.value| < |buf| && buf[HDR_NAME + |r.value|] == 0
    ensures r.Success? ==> forall k :: 0 <= k < |r.value| ==> buf[HDR_NAME + k] != 0 && r.value[k] as int == buf[HDR_NAME + k]
    ensures r.Failure? ==> r.error == Unterminated
  {
    CStringSpec(buf, HDR_NAME);
    CString(buf, HDR_NAME)
  }

  /** The name is shorter than its 64-byte field exactly when the field holds a NUL. */
  lemma {:induction false} HeaderNameFits(buf: seq<Byte>)
    requires |buf| >= STUDIOHDR_SIZE
    ensures HeaderName(buf).Success? && |HeaderName(buf).value| < HDR_NAME_LENGTH <==>
              exists k :: HDR_NAME <= k < HDR_NAME + HDR_NAME_LENGTH && buf[k] == 0
  {
    CStringSpec(buf, HDR_NAME);
  }

  /**
   * The resolver every record and string access goes through: `base + offset`
   * when `size` bytes fit there, and OutOfBounds where the C++ would read
   * outside the buffer.
   */
  function Resolve(buf: seq<Byte>, base: int, offset: int, size: nat): (r: Result<nat>)
    ensures r.Success? <==> 0 <= base + offset && base + offset + size <= |buf|
    ensures r.Success? ==> r.value == base + offset
    ensures r.Failure? ==> r.error == OutOfBounds
  {
    if 0 <= base + offset && base + offset + size <= |buf| then Success(base + offset)
    else Failure(OutOfBounds)
  }

  /** Element `i` of a header-level array: header start + index + i * size. */
  function HeaderArray(buf: seq<Byte>, index: int, i: int, size: nat): (r: Result<nat>)
    ensures r.Success? <==> 0 <= index + i * size && index + i * size + size <= |buf|
    ensures r.Success? ==> r.value == index + i * size
  {
    Resolve(buf, 0, index + i * size, size)
  }

  /** `studiohdr_t::pBone`, whose assert demands 0 <= i < numbones. */
  function PBone(buf: seq<Byte>, h: Header, i: int): (r: Result<nat>)
    requires 0 <= i < h.numBones
    ensures r.Success? ==> r.value == h.boneIndex + i * BONE_SIZE && r.value + BONE_SIZE <= |buf|
    ensures r.Failure? <==> h.boneIndex + i * BONE_SIZE < 0 || h.boneIndex + (i + 1) * BONE_SIZE > |buf|
  {
    HeaderArray(buf, h.boneIndex, i, BONE_SIZE)
  }

  /** `studiohdr_t::pBonecontroller`, whose assert demands 0 <= i < numbonecontrollers. */
  function PBoneController(buf: seq<Byte>, h: Header, i: int): (r: Result<nat>)
    requires 0 <= i < h.numBoneControllers
    ensures r.Success? ==> r.value == h.boneControllerIndex + i * BONECONTROLLER_SIZE
                           && r.value + BONECONTROLLER_SIZE <= |buf|
    ensures r.Failure? <==> (h.boneControllerIndex + i * BONECONTROLLER_SIZE < 0
                           || h.boneControllerIndex + (i + 1) * BONECONTROLLER_SIZE > |buf|)
  {
    HeaderArray(buf, h.boneControllerIndex, i, BONECONTROLLER_SIZE)
  }

  /** `studiohdr_t::pHitboxSet`, whose assert demands 0 <= i < numhitboxsets. */
  function PHitboxSet(buf: seq<Byte>, h: Header, i: int): (r: Result<nat>)
    requires 0 <= i < h.numHitboxSets
    ensures r.Success? ==> r.value == h.hitboxSetIndex + i * HITBOXSET_SIZE && r.value + HITBOXSET_SIZE <= |buf|
    ensures r.Failure? <==> (h.hitboxSetIndex + i * HITBOXSET_SIZE < 0
                           || h.hitboxSetIndex + (i + 1) * HITBOXSET_SIZE > |buf|)
  {
    HeaderArray(buf, h.hitboxSetIndex, i, HITBOXSET_SIZE)
  }

  /** `studiohdr_t::pTexture`, whose assert demands 0 <= i < numtextures. */
  function PTexture(buf: seq<Byte>, h: Header, i: int): (r: Result<nat>)
    requires 0 <= i < h.numTextures
    ensures r.Success? ==> r.value == h.textureIndex + i * TEXTURE_SIZE && r.value + TEXTURE_SIZE <= |buf|
    ensures r.Failure? <==> h.textureIndex + i * TEXTURE_SIZE < 0 || h.textureIndex + (i + 1) * TEXTURE_SIZE > |buf|
  {
    HeaderArray(buf, h.textureIndex, i, TEXTURE_SIZE)
  }

  /** `studiohdr_t::pBodypart`, which has no assert on `i`. */
  function PBodyPart(buf: seq<Byte>, h: Header, i: int): (r: Result<nat>)
    ensures r.Success? ==> r.value == h.bodyPartIndex + i * BODYPARTS_SIZE && r.value + BODYPARTS_SIZE <= |buf|
    ensures r.Failure? <==> (h.bodyPartIndex + i * BODYPARTS_SIZE < 0
                           || h.bodyPartIndex + (i + 1) * BODYPARTS_SIZE > |buf|)
  {
    HeaderArray(buf, h.bodyPartIndex, i, BODYPARTS_SIZE)
  }

  /** Element `i` of a nested array: the holding record's address + its index field + i * size. */
  function NestedArray(buf: seq<Byte>, rec: nat, indexField: nat, i: int, size: nat): (r: Result<nat>)
    requires rec + indexField + 4 <= |buf|
    ensures r.Success? ==> r.value == rec + ReadI32(buf, rec + indexField) + i * size && r.value + size <= |buf|
    ensures r.Failure? <==> (rec + ReadI32(buf, rec + indexField) + i * size < 0
                           || rec + ReadI32(buf, rec + indexField) + i * size + size > |buf|)
  {
    Resolve(buf, rec, ReadI32(buf, rec + indexField) + i * size, size)
  }

  /** `mstudiohitboxset_t::pHitbox`: measured from the hitbox-set record, not from the buffer start. */
  function PHitbox(buf: seq<Byte>, hitboxSet: nat, i: int): (r: Result<nat>)
    requires hitboxSet + HITBOXSET_SIZE <= |buf|
    ensures r.Success? ==> r.value == hitboxSet + ReadI32(buf, hitboxSet + HITBOXSET_HITBOXINDEX) + i * BBOX_SIZE
                           && r.value + BBOX_SIZE <= |buf|
    ensures r.Failure? <==> (hitboxSet + ReadI32(buf, hitboxSet + HITBOXSET_HITBOXINDEX) + i * BBOX_SIZE < 0
                           || hitboxSet + ReadI32(buf, hitboxSet + HITBOXSET_HITBOXINDEX) + (i + 1) * BBOX_SIZE > |buf|)
  {
    NestedArray(buf, hitboxSet, HITBOXSET_HITBOXINDEX, i, BBOX_SIZE)
  }

  /** `mstudiobodyparts_t::pModel`: measured from the body-part record. */
  function PModel(buf: seq<Byte>, part: nat, i: int): (r: Result<nat>)
    requires part + BODYPARTS_SIZE <= |buf|
    ensures r.Success? ==> r.value == part + ReadI32(buf, part + BODYPARTS_MODELINDEX) + i * MODEL_SIZE
                           && r.value + MODEL_SIZE <= |buf|
    ensures r.Failure? <==> (part + ReadI32(buf, part + BODYPARTS_MODELINDEX) + i * MODEL_SIZE < 0
                           || part + ReadI32(buf, part + BODYPARTS_MODELINDEX) + (i + 1) * MODEL_SIZE > |buf|)
  {
    NestedArray(buf, part, BODYPARTS_MODELINDEX, i, MODEL_SIZE)
  }

  /** `mstudiomodel_t::pEyeball`: measured from the studio-model record. */
  function PEyeball(buf: seq<Byte>, model: nat, i: int): (r: Result<nat>)
    requires model + MODEL_SIZE <= |buf|
    ensures r.Success? ==> r.value == model + ReadI32(buf, model + MODEL_EYEBALLINDEX) + i * EYEBALL_SIZE
                           && r.value + EYEBALL_SIZE <= |buf|
    ensures r.Failure? <==> (model + ReadI32(buf, model + MODEL_EYEBALLINDEX) + i * EYEBALL_SIZE < 0
                           || model + ReadI32(buf, model + MODEL_EYEBALLINDEX) + (i + 1) * EYEBALL_SIZE > |buf|)
  {
    NestedArray(buf, model, MODEL_EYEBALLINDEX, i, EYEBALL_SIZE)
  }

  /**
   * Moving a record together with the bytes its offsets lead to moves its
   * children by the same distance: nested addresses depend on the record's
   * own position and contents, never on the buffer start.
   */
  lemma {:induction false} NestedArrayIsSelfRelative(buf: seq<Byte>, rec: nat, pad: seq<Byte>, indexField: nat, i: int, size: nat)
    requires rec + indexField + 4 <= |buf|
    ensures NestedArray(buf, rec, indexField, i, size).Success? ==>
              NestedArray(pad + buf, |pad| + rec, indexField, i, size)
                == Success(|pad| + NestedArray(buf, rec, indexField, i, size).value)
  {
    var shifted := pad + buf;
    assert shifted[|pad| + rec + indexField..|pad| + rec + indexField + 4] == buf[rec + indexField..rec + indexField + 4];
  }

  /** The `pszName` accessors of bone, texture, hitbox set, body part and eyeball: no special case for 0. */
  function PszName(buf: seq<Byte>, rec: nat): (r: Result<string>)
    requires rec + 4 <= |buf|
    ensures r == CString(buf, rec + ReadI32(buf, rec))
    ensures ReadI32(buf, rec) == 0 ==> r == CString(buf, rec)
  {
    CString(buf, rec + ReadI32(buf, rec))
  }

  /** `mstudiobbox_t::pszHitboxName`: offset 0 is the empty name and is never dereferenced. */
  function PszHitboxName(buf: seq<Byte>, bbox: nat): (r: Result<string>)
    requires bbox + BBOX_SIZE <= |buf|
    ensures ReadI32(buf, bbox + BBOX_NAMEINDEX) == 0 ==> r == Success("")
    ensures ReadI32(buf, bbox + BBOX_NAMEINDEX) != 0 ==> r == CString(buf, bbox + ReadI32(buf, bbox + BBOX_NAMEINDEX))
  {
    var index := ReadI32(buf, bbox + BBOX_NAMEINDEX);
    if index == 0 then Success("") else CString(buf, bbox + index)
  }

  /**
   * `mstudioactivitymodifier_t::pszName` and `studiohdr2_t::pszName`: the
   * offset at `rec + field` is measured from `rec`, and 0 yields no name (a
   * null pointer) instead of the record's own bytes.
   */
  function OptionalName(buf: seq<Byte>, rec: nat, field: nat): (r: Result<Option<string>>)
    requires rec + field + 4 <= |buf|
    ensures ReadI32(buf, rec + field) == 0 <==> r == Success(None)
    ensures ReadI32(buf, rec + field) != 0 ==>
              && (r.Success? <==> CString(buf, rec + ReadI32(buf, rec + field)).Success?)
              && (r.Success? ==> r.value == Some(CString(buf, rec + ReadI32(buf, rec + field)).value))
              && (r.Failure? ==> r.error == CString(buf, rec + ReadI32(buf, rec + field)).error)
  {
    var index := ReadI32(buf, rec + field);
    if index == 0 then Success(None)
    else
      var name :- CString(buf, rec + index);
      Success(Some(name))
  }

  /** `mstudiomodel_t::pszName`: the inline 64-byte name field, read as a C string. */
  function StudioModelName(buf: seq<Byte>, model: nat): (r: Result<string>)
    requires model + MODEL_SIZE <= |buf|
    ensures r.Success? <==> exists k :: model <= k < |buf| && buf[k] == 0
    ensures r.Success? ==> model + |r.value| < |buf| && buf[model + |r.value|] == 0
    ensures r.Success? ==> forall k :: 0 <= k < |r.value| ==> buf[model + k] != 0 && r.value[k] as int == buf[model + k]
    ensures r.Failure? ==> r.error == Unterminated
  {
    CStringSpec(buf, model + MODEL_NAME);
    CString(buf, model + MODEL_NAME)
  }

  /** The inline name is shorter than its 64-byte field exactly when the field holds a NUL. */
  lemma {:induction false} StudioModelNameFits(buf: seq<Byte>, model: nat)
    requires model + MODEL_SIZE <= |buf|
    ensures StudioModelName(buf, model).Success? && |StudioModelName(buf, model).value| < 64 <==>
              exists k :: model + MODEL_NAME <= k < model + MODEL_NAME + 64 && buf[k] == 0
  {
    CStringSpec(buf, model + MODEL_NAME);
  }

  /** The `clamp` template. */
  function Clamp(val: int, minVal: int, maxVal: int): (r: int)
    ensures maxVal < minVal ==> r == maxVal
    ensures minVal <= maxVal ==> minVal <= r <= maxVal
    ensures minVal <= val <= maxVal ==> r == val
    ensures minVal <= maxVal && val < minVal ==> r == minVal
    ensures minVal <= maxVal && val > maxVal ==> r == maxVal
  {
    if maxVal < minVal then maxVal
    else if val < minVal then minVal
    else if val > maxVal then maxVal
    else val
  }

  /** Clamping twice changes nothing more. */
  lemma ClampIdempotent(val: int, minVal: int, maxVal: int)
    requires minVal <= maxVal
    ensures Clamp(Clamp(val, minVal, maxVal), minVal, maxVal) == Clamp(val, minVal, maxVal)
  {
  }

  /** The index `pLocalSeqdesc` and `pLocalAnimdesc` use: out-of-range indices become 0. */
  function LocalIndex(i: int, count: int): (k: int)
    ensures k == i || k == 0
    ensures 0 <= k
    ensures count > 0 ==> k < count
    ensures 0 <= i < count ==> k == i
    ensures !(0 <= i < count) ==> k == 0
  {
    if i < 0 || i >= count then 0 else i
  }

  /** `studiohdr_t::pLocalSeqdesc`. */
  function PLocalSeqdesc(buf: seq<Byte>, h: Header, i: int): (r: Result<nat>)
    ensures r.Success? ==> r.value == h.localSeqIndex + LocalIndex(i, h.numLocalSeq) * SEQDESC_SIZE
    ensures r.Success? <==> (0 <= h.localSeqIndex + LocalIndex(i, h.numLocalSeq) * SEQDESC_SIZE
                           && h.localSeqIndex + (LocalIndex(i, h.numLocalSeq) + 1) * SEQDESC_SIZE <= |buf|)
    ensures !(0 <= i < h.numLocalSeq) ==> r == HeaderArray(buf, h.localSeqIndex, 0, SEQDESC_SIZE)
  {
    HeaderArray(buf, h.localSeqIndex, LocalIndex(i, h.numLocalSeq), SEQDESC_SIZE)
  }

  /** `studiohdr_t::pLocalAnimdesc`. */
  function PLocalAnimdesc(buf: seq<Byte>, h: Header, i: int): (r: Result<nat>)
    ensures r.Success? ==> r.value == h.localAnimIndex + LocalIndex(i, h.numLocalAnim) * ANIMDESC_SIZE
    ensures r.Success? <==> (0 <= h.localAnimIndex + LocalIndex(i, h.numLocalAnim) * ANIMDESC_SIZE
                           && h.localAnimIndex + (LocalIndex(i, h.numLocalAnim) + 1) * ANIMDESC_SIZE <= |buf|)
    ensures !(0 <= i < h.numLocalAnim) ==> r == HeaderArray(buf, h.localAnimIndex, 0, ANIMDESC_SIZE)
  {
    HeaderArray(buf, h.localAnimIndex, LocalIndex(i, h.numLocalAnim), ANIMDESC_SIZE)
  }

  /** `studiohdr_t::pHitbox(i, set)`: bbox `i` of hitbox set number `setIndex`. */
  function PHitboxOfSet(buf: seq<Byte>, h: Header, i: int, setIndex: int): (r: Result<nat>)
    requires 0 <= setIndex < h.numHitboxSets
    ensures PHitboxSet(buf, h, setIndex).Success? ==> r == PHitbox(buf, PHitboxSet(buf, h, setIndex).value, i)
    ensures PHitboxSet(buf, h, setIndex).Failure? ==> r == Failure(PHitboxSet(buf, h, setIndex).error)
  {
    var s :- PHitboxSet(buf, h, setIndex);
    PHitbox(buf, s, i)
  }

  /** `studiohdr_t::iHitboxCount`: the `numhitboxes` field of setIndex `set`. */
  function HitboxCount(buf: seq<Byte>, h: Header, setIndex: int): (r: Result<int>)
    requires 0 <= setIndex < h.numHitboxSets
    ensures r.Success? <==> PHitboxSet(buf, h, setIndex).Success?
    ensures r.Success? ==> r.value == ReadI32(buf, PHitboxSet(buf, h, setIndex).value + HITBOXSET_NUMHITBOXES)
  {
    var s :- PHitboxSet(buf, h, setIndex);
    Success(ReadI32(buf, s + HITBOXSET_NUMHITBOXES))
  }
}

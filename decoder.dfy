/**
 * What the `Cache` methods read out of the buffer. Each entity kind has a
 * function that decodes one record; the counted loops of the C++ are
 * specified by `Collect`, and the `Cache` methods whose bodies hold such a
 * loop are written as methods proved equal to those functions.
 *
 * A decode that would read outside the buffer fails, and the first failure
 * in record order is what a loop reports.
 */
module Decoder {
  import opened Wrappers
  import opened Bytes
  import opened Studio
  import opened Entities

  /** How many times `for (int i = 0; i < n; i++)` runs. */
  function Count(n: int): (c: nat)
    ensures n >= 0 ==> c == n
    ensures n < 0 ==> c == 0
  {
    if n < 0 then 0 else n
  }

  /**
   * Elements 0 .. n-1 of a counted loop, `f(i)` decoding element `i`, in
   * order; the first element that fails decides the outcome.
   */
  function Collect<T>(n: nat, f: nat --> Result<T>): (r: Result<seq<T>>)
    requires forall i :: 0 <= i < n ==> f.requires(i)
    ensures r.Success? ==> |r.value| == n
    decreases n, 1
  {
    if n == 0 then Success([]) else CollectLast(n, f)
  }

  /** A loop of `n` >= 1 iterations: the first `n - 1`, then element `n - 1`. */
  function CollectLast<T>(n: nat, f: nat --> Result<T>): (r: Result<seq<T>>)
    requires n >= 1 && forall i :: 0 <= i < n ==> f.requires(i)
    ensures r.Success? ==> |r.value| == n
    decreases n, 0
  {
    var prefix :- Collect(n - 1, f);
    var last :- f(n - 1);
    Success(prefix + [last])
  }

  /** A counted loop succeeds exactly when every element does, and then holds every element in order. */
  lemma {:induction false} CollectSucceeds<T>(n: nat, f: nat --> Result<T>)
    requires forall i :: 0 <= i < n ==> f.requires(i)
    ensures Collect(n, f).Success? <==> forall i :: 0 <= i < n ==> f(i).Success?
    ensures Collect(n, f).Success? ==>
              |Collect(n, f).value| == n && forall i :: 0 <= i < n ==> Collect(n, f).value[i] == f(i).value
    decreases n
  {
    if n > 0 {
      CollectSucceeds(n - 1, f);
    }
  }

  /** One more good element extends a successful loop by that element. */
  lemma CollectAppend<T>(i: nat, f: nat --> Result<T>, acc: seq<T>)
    requires forall k :: 0 <= k <= i ==> f.requires(k)
    requires Collect(i, f) == Success(acc) && f(i).Success?
    ensures Collect(i + 1, f) == Success(acc + [f(i).value])
  {
  }

  /** A loop that meets a failing element after a run of good ones reports that element's error. */
  lemma {:induction false} CollectStopsAt<T>(n: nat, f: nat --> Result<T>, i: nat)
    requires forall k :: 0 <= k < n ==> f.requires(k)
    requires i < n && Collect(i, f).Success? && f(i).Failure?
    ensures Collect(n, f) == Failure(f(i).error)
    decreases n
  {
    if n > i + 1 {
      CollectStopsAt(n - 1, f, i);
    }
  }

  /** The keys 0 .. |s|-1 of a map filled by `insert({ i, s[i] })` in a counted loop. */
  function IndexMap<T>(s: seq<T>): (m: map<int, T>)
    ensures forall k :: k in m <==> 0 <= k < |s|
    ensures forall k :: 0 <= k < |s| ==> m[k] == s[k]
  {
    map k | 0 <= k < |s| :: s[k]
  }

  lemma IndexMapAppend<T>(s: seq<T>, x: T)
    ensures IndexMap(s + [x]) == IndexMap(s)[|s| := x]
  {
    var a, b := IndexMap(s + [x]), IndexMap(s)[|s| := x];
    assert a.Keys == b.Keys;
    assert forall k :: k in a ==> a[k] == b[k];
  }

  /**
   * The counted loop itself, `for (int i = 0; i < n; i++)` pushing each
   * decoded element in turn; the first element that fails ends it.
   */
  method CollectLoop<T>(n: int, f: nat --> Result<T>) returns (r: Result<seq<T>>)
    requires forall i :: 0 <= i < Count(n) ==> f.requires(i)
    ensures r == Collect(Count(n), f)
  {
    var acc: seq<T> := [];
    var i := 0;
    while i < n
      invariant 0 <= i <= Count(n)
      invariant Collect(i, f) == Success(acc)
    {
      var e := f(i);
      if e.Failure? {
        CollectStopsAt(Count(n), f, i);
        return Failure(e.error);
      }
      CollectAppend(i, f, acc);
      acc := acc + [e.value];
      i := i + 1;
    }
    assert i == Count(n);
    r := Success(acc);
  }

  /** The same loop when it inserts element `i` into a map under key `i`, as the bone loop does. */
  method CollectMapLoop<T>(n: int, f: nat --> Result<T>) returns (r: Result<seq<T>>, m: map<int, T>)
    requires forall i :: 0 <= i < Count(n) ==> f.requires(i)
    ensures r == Collect(Count(n), f)
    ensures r.Success? ==> m == IndexMap(r.value)
  {
    var acc: seq<T> := [];
    m := map[];
    var i := 0;
    while i < n
      invariant 0 <= i <= Count(n)
      invariant Collect(i, f) == Success(acc)
      invariant |acc| == i && m == IndexMap(acc)
    {
      var e := f(i);
      if e.Failure? {
        CollectStopsAt(Count(n), f, i);
        return Failure(e.error), m;
      }
      IndexMapAppend(acc, e.value);
      CollectAppend(i, f, acc);
      m := m[i := e.value];
      acc := acc + [e.value];
      i := i + 1;
    }
    assert i == Count(n);
    r := Success(acc);
  }

  /** `std::tolower` on one byte, in the "C" locale: only `A`-`Z` change. */
  function LowerChar(c: char): (r: char)
    ensures !('A' <= r <= 'Z')
    ensures 'A' <= c <= 'Z' ==> r as int == c as int + 32
    ensures !('A' <= c <= 'Z') ==> r == c
  {
    if 'A' <= c <= 'Z' then (c as int + 32) as char else c
  }

  function LowerAscii(s: string): (r: string)
    ensures |r| == |s|
    ensures forall k :: 0 <= k < |s| ==> r[k] == LowerChar(s[k])
  {
    seq(|s|, k requires 0 <= k < |s| => LowerChar(s[k]))
  }

  /** Lower-casing twice is lower-casing once. */
  lemma {:induction false} LowerAsciiIdempotent(s: string)
    ensures LowerAscii(LowerAscii(s)) == LowerAscii(s)
  {
    var once := LowerAscii(s);
    assert forall k :: 0 <= k < |s| ==> LowerAscii(once)[k] == LowerChar(once[k]) == once[k];
  }

  /** `ToLower`: rewrites the string in place. */
  method ToLower(str: array<char>)
    modifies str
    ensures str[..] == LowerAscii(old(str[..]))
  {
    var i := 0;
    while i < str.Length
      invariant 0 <= i <= str.Length
      invariant forall k :: 0 <= k < i ==> str[k] == LowerChar(old(str[k]))
      invariant forall k :: i <= k < str.Length ==> str[k] == old(str[k])
    {
      str[i] := LowerChar(str[i]);
      i := i + 1;
    }
  }

  /** The model's display name: the header's name, lower-cased. */
  function ModelName(buf: seq<Byte>): (r: Result<string>)
    requires |buf| >= STUDIOHDR_SIZE
    ensures r.Success? <==> HeaderName(buf).Success?
    ensures r.Success? ==> |r.value| == |HeaderName(buf).value| && forall k :: 0 <= k < |r.value| ==> !('A' <= r.value[k] <= 'Z')
  {
    var name :- HeaderName(buf);
    Success(LowerAscii(name))
  }

  /**
   * The display name exists exactly when the header's name does, has its
   * length, and is its bytes with `A`-`Z` lowered; no upper-case letter is left.
   */
  lemma {:induction false} ModelNameLowered(buf: seq<Byte>)
    requires |buf| >= STUDIOHDR_SIZE
    ensures ModelName(buf).Success? <==> HeaderName(buf).Success?
    ensures ModelName(buf).Success? ==>
              var s := ModelName(buf).value;
              |s| == |HeaderName(buf).value|
              && forall k :: 0 <= k < |s| ==> s[k] == LowerChar(buf[HDR_NAME + k] as char) && !('A' <= s[k] <= 'Z')
  {
    CStringSpec(buf, HDR_NAME);
    if HeaderName(buf).Success? {
      var name := HeaderName(buf).value;
      assert forall k :: 0 <= k < |name| ==> name[k] == buf[HDR_NAME + k] as char;
    }
  }

  // ---- records without nested arrays ----

  /** `CModelBone::Cache`: only the name can fail; the rest is copied from the in-bounds record. */
  function BoneAt(buf: seq<Byte>, rec: nat): (r: Result<ModelBone>)
    requires rec + BONE_SIZE <= |buf|
    ensures r.Success? <==> PszName(buf, rec + BONE_NAMEINDEX).Success?
  {
    var name :- PszName(buf, rec + BONE_NAMEINDEX);
    Success(ModelBone(
      name,
      ReadI32(buf, rec + BONE_PARENT),
      ReadI32(buf, rec + BONE_FLAGS),
      ReadI32(buf, rec + BONE_CONTENTS),
      ReadVector(buf, rec + BONE_POS)))
  }

  /** Whether a bone can be stored: its `int` fields fit a C++ `int` and its name a C string. */
  predicate BoneFits(b: ModelBone)
  {
    && IsCName(b.name)
    && INT32_MIN <= b.parent < INT32_LIMIT && INT32_MIN <= b.flags < INT32_LIMIT
    && INT32_MIN <= b.contents < INT32_LIMIT
  }

  /** The 216-byte `mstudiobone_t` record holding `b` with name offset `nameIndex`; every field the decoder does not read is zero. */
  function BoneRecord(b: ModelBone, nameIndex: int): (bs: seq<Byte>)
    requires BoneFits(b) && INT32_MIN <= nameIndex < INT32_LIMIT
    ensures |bs| == BONE_SIZE
  {
    EncodeI32(nameIndex) + EncodeI32(b.parent) + Zeros(24) + EncodeVector(b.position) + Zeros(116)
      + EncodeI32(b.flags) + Zeros(16) + EncodeI32(b.contents) + Zeros(32)
  }

  /** The fields of a bone record read back as the values written into it. */
  lemma {:induction false} BoneRecordFields(b: ModelBone, nameIndex: int)
    requires BoneFits(b) && INT32_MIN <= nameIndex < INT32_LIMIT
    ensures var e := BoneRecord(b, nameIndex);
            && ReadI32(e, BONE_NAMEINDEX) == nameIndex && ReadI32(e, BONE_PARENT) == b.parent
            && ReadVector(e, BONE_POS) == b.position
            && ReadI32(e, BONE_FLAGS) == b.flags && ReadI32(e, BONE_CONTENTS) == b.contents
  {
    var e := BoneRecord(b, nameIndex);
    assert e[..4] == EncodeI32(nameIndex) && e[4..8] == EncodeI32(b.parent);
    assert e[32..44] == EncodeVector(b.position);
    assert e[160..164] == EncodeI32(b.flags) && e[180..184] == EncodeI32(b.contents);
    ReadI32Of(e, BONE_NAMEINDEX, nameIndex);
    ReadI32Of(e, BONE_PARENT, b.parent);
    ReadVectorOf(e, BONE_POS, b.position);
    ReadI32Of(e, BONE_FLAGS, b.flags);
    ReadI32Of(e, BONE_CONTENTS, b.contents);
  }

  /** A bone record followed by its NUL-terminated name, which the name offset 216 points at. */
  function EncodeBone(b: ModelBone): (bs: seq<Byte>)
    requires BoneFits(b)
    ensures |bs| == BONE_SIZE + |b.name| + 1
  {
    BoneRecord(b, BONE_SIZE) + FromChars(b.name) + [0]
  }

  /**
   * A bone is copied field for field, its parent unchecked (-1 for a root
   * bone included) and its name read through its self-relative offset: the
   * record written for any bone, anywhere in a buffer, decodes to that bone.
   */
  lemma {:induction false} BoneRoundTrip(b: ModelBone, pre: seq<Byte>, post: seq<Byte>)
    requires BoneFits(b)
    ensures BoneAt(pre + EncodeBone(b) + post, |pre|) == Success(b)
  {
    NameAfterRecord(pre, BoneRecord(b, BONE_SIZE), b.name, post);
    BoneAtOf(pre + EncodeBone(b) + post, |pre|, b);
  }

  /** Where a record and the name after it sit in a buffer. */
  lemma {:induction false} NameAfterRecord(pre: seq<Byte>, e: seq<Byte>, name: string, post: seq<Byte>)
    requires IsCName(name)
    ensures var buf := pre + (e + FromChars(name) + [0]) + post;
            && buf[|pre|..|pre| + |e|] == e
            && buf[|pre| + |e|..|pre| + |e| + |name|] == FromChars(name)
            && buf[|pre| + |e| + |name|] == 0
  {
  }

  /** The bone record and its name, laid out as EncodeBone does, decode to the bone. */
  lemma {:induction false} BoneAtOf(buf: seq<Byte>, p: nat, b: ModelBone)
    requires BoneFits(b) && p + BONE_SIZE + |b.name| < |buf|
    requires buf[p..p + BONE_SIZE] == BoneRecord(b, BONE_SIZE)
    requires buf[p + BONE_SIZE..p + BONE_SIZE + |b.name|] == FromChars(b.name) && buf[p + BONE_SIZE + |b.name|] == 0
    ensures BoneAt(buf, p) == Success(b)
  {
    var e := BoneRecord(b, BONE_SIZE);
    BoneRecordFields(b, BONE_SIZE);
    ReadWithin(buf, p, e, BONE_NAMEINDEX);
    ReadWithin(buf, p, e, BONE_PARENT);
    ReadVectorWithin(buf, p, e, BONE_POS);
    ReadWithin(buf, p, e, BONE_FLAGS);
    ReadWithin(buf, p, e, BONE_CONTENTS);
    CStringOfName(buf, p + BONE_SIZE, b.name);
  }

  /** Whether every `int` field of a controller fits a C++ `int`, as one read from a file does. */
  predicate ControllerFits(c: BoneController)
  {
    && INT32_MIN <= c.bone < INT32_LIMIT && INT32_MIN <= c.controllerType < INT32_LIMIT
    && INT32_MIN <= c.rest < INT32_LIMIT && INT32_MIN <= c.inputField < INT32_LIMIT
  }

  /** `CBoneController::Cache`: plain fields, so an in-bounds record always decodes. */
  function BoneControllerAt(buf: seq<Byte>, rec: nat): (c: BoneController)
    requires rec + BONECONTROLLER_SIZE <= |buf|
    ensures ControllerFits(c)
  {
    BoneController(
      ReadI32(buf, rec + CONTROLLER_BONE),
      ReadI32(buf, rec + CONTROLLER_TYPE),
      ReadI32(buf, rec + CONTROLLER_REST),
      ReadI32(buf, rec + CONTROLLER_INPUTFIELD),
      ReadU32(buf, rec + CONTROLLER_START),
      ReadU32(buf, rec + CONTROLLER_END))
  }

  /** The 56-byte `mstudiobonecontroller_t` record holding `c`, its eight unused ints zero. */
  function EncodeBoneController(c: BoneController): (bs: seq<Byte>)
    requires ControllerFits(c)
    ensures |bs| == BONECONTROLLER_SIZE
  {
    EncodeI32(c.bone) + EncodeI32(c.controllerType) + EncodeU32(c.start) + EncodeU32(c.end)
      + EncodeI32(c.rest) + EncodeI32(c.inputField) + seq(32, _ => 0)
  }

  /**
   * A controller is copied field for field, with no check of its bone index:
   * the record written for any controller, anywhere in a buffer, decodes to
   * that controller.
   */
  lemma {:induction false} BoneControllerRoundTrip(c: BoneController, pre: seq<Byte>, post: seq<Byte>)
    requires ControllerFits(c)
    ensures BoneControllerAt(pre + EncodeBoneController(c) + post, |pre|) == c
  {
    var buf := pre + EncodeBoneController(c) + post;
    var p := |pre|;
    assert buf[p..p + 4] == EncodeI32(c.bone);
    assert buf[p + 4..p + 8] == EncodeI32(c.controllerType);
    assert buf[p + 8..p + 12] == EncodeU32(c.start);
    assert buf[p + 12..p + 16] == EncodeU32(c.end);
    assert buf[p + 16..p + 20] == EncodeI32(c.rest);
    assert buf[p + 20..p + 24] == EncodeI32(c.inputField);
    ReadI32Of(buf, p + CONTROLLER_BONE, c.bone);
    ReadI32Of(buf, p + CONTROLLER_TYPE, c.controllerType);
    ReadU32Of(buf, p + CONTROLLER_START, c.start);
    ReadU32Of(buf, p + CONTROLLER_END, c.end);
    ReadI32Of(buf, p + CONTROLLER_REST, c.rest);
    ReadI32Of(buf, p + CONTROLLER_INPUTFIELD, c.inputField);
  }

  /** Decoding a controller record and writing it back reproduces its first 24 bytes, every field it has. */
  lemma {:induction false} BoneControllerRecordRoundTrip(buf: seq<Byte>, rec: nat)
    requires rec + BONECONTROLLER_SIZE <= |buf|
    ensures ControllerFits(BoneControllerAt(buf, rec))
    ensures EncodeBoneController(BoneControllerAt(buf, rec))[..24] == buf[rec..rec + 24]
  {
    var c := BoneControllerAt(buf, rec);
    var fields := EncodeI32(c.bone) + EncodeI32(c.controllerType) + EncodeU32(c.start) + EncodeU32(c.end)
                  + EncodeI32(c.rest) + EncodeI32(c.inputField);
    assert EncodeBoneController(c) == fields + seq(32, _ => 0);
    EncodeReadI32(buf, rec + CONTROLLER_BONE);
    EncodeReadI32(buf, rec + CONTROLLER_TYPE);
    EncodeReadU32(buf, rec + CONTROLLER_START);
    EncodeReadU32(buf, rec + CONTROLLER_END);
    EncodeReadI32(buf, rec + CONTROLLER_REST);
    EncodeReadI32(buf, rec + CONTROLLER_INPUTFIELD);
    assert buf[rec..rec + 24] == buf[rec..rec + 4] + buf[rec + 4..rec + 8] + buf[rec + 8..rec + 12]
                                 + buf[rec + 12..rec + 16] + buf[rec + 16..rec + 20] + buf[rec + 20..rec + 24];
    assert (fields + seq(32, _ => 0))[..24] == fields;
  }

  /** `CBBox::Cache`: a name offset of 0 is the empty name. */
  function BBoxAt(buf: seq<Byte>, rec: nat): (r: Result<BBox>)
    requires rec + BBOX_SIZE <= |buf|
    ensures r.Success? <==> PszHitboxName(buf, rec).Success?
    ensures ReadI32(buf, rec + BBOX_NAMEINDEX) == 0 ==> r.Success? && r.value.name == ""
  {
    var name :- PszHitboxName(buf, rec);
    Success(BBox(
      name,
      ReadVector(buf, rec + BBOX_BBMIN),
      ReadVector(buf, rec + BBOX_BBMAX),
      ReadI32(buf, rec + BBOX_BONE),
      ReadI32(buf, rec + BBOX_GROUP)))
  }

  /** Whether a bbox can be stored: its `int` fields fit a C++ `int` and its name a C string. */
  predicate BBoxFits(x: BBox)
  {
    IsCName(x.name) && INT32_MIN <= x.bone < INT32_LIMIT && INT32_MIN <= x.group < INT32_LIMIT
  }

  /** The 68-byte `mstudiobbox_t` record holding `x` with name offset `nameIndex`; its unused ints are zero. */
  function BBoxRecord(x: BBox, nameIndex: int): (bs: seq<Byte>)
    requires BBoxFits(x) && INT32_MIN <= nameIndex < INT32_LIMIT
    ensures |bs| == BBOX_SIZE
  {
    EncodeI32(x.bone) + EncodeI32(x.group) + EncodeVector(x.bbMin) + EncodeVector(x.bbMax)
      + EncodeI32(nameIndex) + Zeros(32)
  }

  /** The fields of a bbox record read back as the values written into it. */
  lemma {:induction false} BBoxRecordFields(x: BBox, nameIndex: int)
    requires BBoxFits(x) && INT32_MIN <= nameIndex < INT32_LIMIT
    ensures var e := BBoxRecord(x, nameIndex);
            && ReadI32(e, BBOX_BONE) == x.bone && ReadI32(e, BBOX_GROUP) == x.group
            && ReadVector(e, BBOX_BBMIN) == x.bbMin && ReadVector(e, BBOX_BBMAX) == x.bbMax
            && ReadI32(e, BBOX_NAMEINDEX) == nameIndex
  {
    var e := BBoxRecord(x, nameIndex);
    assert e[..4] == EncodeI32(x.bone) && e[4..8] == EncodeI32(x.group);
    assert e[8..20] == EncodeVector(x.bbMin) && e[20..32] == EncodeVector(x.bbMax);
    assert e[32..36] == EncodeI32(nameIndex);
    ReadI32Of(e, BBOX_BONE, x.bone);
    ReadI32Of(e, BBOX_GROUP, x.group);
    ReadVectorOf(e, BBOX_BBMIN, x.bbMin);
    ReadVectorOf(e, BBOX_BBMAX, x.bbMax);
    ReadI32Of(e, BBOX_NAMEINDEX, nameIndex);
  }

  /**
   * A bbox as a file stores it: with no name, the record alone with name
   * offset 0; otherwise the record followed by its NUL-terminated name, which
   * the name offset 68 points at.
   */
  function EncodeBBox(x: BBox): (bs: seq<Byte>)
    requires BBoxFits(x)
    ensures |bs| == if x.name == "" then BBOX_SIZE else BBOX_SIZE + |x.name| + 1
  {
    if x.name == "" then BBoxRecord(x, 0) else BBoxRecord(x, BBOX_SIZE) + FromChars(x.name) + [0]
  }

  /** The bbox record, laid out as EncodeBBox does, decodes to the bbox. */
  lemma {:induction false} BBoxAtOf(buf: seq<Byte>, p: nat, x: BBox)
    requires BBoxFits(x) && p + BBOX_SIZE <= |buf|
    requires x.name == "" ==> buf[p..p + BBOX_SIZE] == BBoxRecord(x, 0)
    requires x.name != "" ==>
               && p + BBOX_SIZE + |x.name| < |buf|
               && buf[p..p + BBOX_SIZE] == BBoxRecord(x, BBOX_SIZE)
               && buf[p + BBOX_SIZE..p + BBOX_SIZE + |x.name|] == FromChars(x.name)
               && buf[p + BBOX_SIZE + |x.name|] == 0
    ensures BBoxAt(buf, p) == Success(x)
  {
    var e := BBoxRecord(x, if x.name == "" then 0 else BBOX_SIZE);
    BBoxRecordFields(x, if x.name == "" then 0 else BBOX_SIZE);
    ReadWithin(buf, p, e, BBOX_BONE);
    ReadWithin(buf, p, e, BBOX_GROUP);
    ReadVectorWithin(buf, p, e, BBOX_BBMIN);
    ReadVectorWithin(buf, p, e, BBOX_BBMAX);
    ReadWithin(buf, p, e, BBOX_NAMEINDEX);
    if x.name != "" {
      CStringOfName(buf, p + BBOX_SIZE, x.name);
    }
  }

  /**
   * A bbox is copied field for field, and its name is the empty string
   * exactly when it is stored with name offset 0: the record written for any
   * bbox, anywhere in a buffer, decodes to that bbox.
   */
  lemma {:induction false} BBoxRoundTrip(x: BBox, pre: seq<Byte>, post: seq<Byte>)
    requires BBoxFits(x)
    ensures BBoxAt(pre + EncodeBBox(x) + post, |pre|) == Success(x)
  {
    if x.name == "" {
      assert (pre + EncodeBBox(x) + post)[|pre|..|pre| + BBOX_SIZE] == BBoxRecord(x, 0);
    } else {
      NameAfterRecord(pre, BBoxRecord(x, BBOX_SIZE), x.name, post);
    }
    BBoxAtOf(pre + EncodeBBox(x) + post, |pre|, x);
  }

  /** `CStudioEyeBall::Cache` */
  function EyeBallAt(buf: seq<Byte>, rec: nat): (r: Result<StudioEyeBall>)
    requires rec + EYEBALL_SIZE <= |buf|
    ensures r.Success? <==> PszName(buf, rec + EYEBALL_NAMEINDEX).Success?
  {
    var name :- PszName(buf, rec + EYEBALL_NAMEINDEX);
    Success(StudioEyeBall(
      ReadVector(buf, rec + EYEBALL_ORG),
      ReadVector(buf, rec + EYEBALL_UP),
      ReadVector(buf, rec + EYEBALL_FORWARD),
      name,
      ReadI32(buf, rec + EYEBALL_BONE),
      ReadI32(buf, rec + EYEBALL_TEXTURE),
      ReadU32(buf, rec + EYEBALL_ZOFFSET),
      ReadU32(buf, rec + EYEBALL_RADIUS)))
  }

  /** Whether an eyeball can be stored: its `int` fields fit a C++ `int` and its name a C string. */
  predicate EyeBallFits(x: StudioEyeBall)
  {
    IsCName(x.name) && INT32_MIN <= x.bone < INT32_LIMIT && INT32_MIN <= x.texture < INT32_LIMIT
  }

  /** The 172-byte `mstudioeyeball_t` record holding `x` with name offset `nameIndex`; every field the decoder does not read is zero. */
  function EyeBallRecord(x: StudioEyeBall, nameIndex: int): (bs: seq<Byte>)
    requires EyeBallFits(x) && INT32_MIN <= nameIndex < INT32_LIMIT
    ensures |bs| == EYEBALL_SIZE
  {
    EncodeI32(nameIndex) + EncodeI32(x.bone) + EncodeVector(x.origin) + EncodeU32(x.zOffset) + EncodeU32(x.radius)
      + EncodeVector(x.dirUp) + EncodeVector(x.dirForward) + EncodeI32(x.texture) + Zeros(116)
  }

  /** The fields of an eyeball record read back as the values written into it. */
  lemma {:induction false} EyeBallRecordFields(x: StudioEyeBall, nameIndex: int)
    requires EyeBallFits(x) && INT32_MIN <= nameIndex < INT32_LIMIT
    ensures var e := EyeBallRecord(x, nameIndex);
            && ReadI32(e, EYEBALL_NAMEINDEX) == nameIndex && ReadI32(e, EYEBALL_BONE) == x.bone
            && ReadVector(e, EYEBALL_ORG) == x.origin
            && ReadU32(e, EYEBALL_ZOFFSET) == x.zOffset && ReadU32(e, EYEBALL_RADIUS) == x.radius
            && ReadVector(e, EYEBALL_UP) == x.dirUp && ReadVector(e, EYEBALL_FORWARD) == x.dirForward
            && ReadI32(e, EYEBALL_TEXTURE) == x.texture
  {
    var e := EyeBallRecord(x, nameIndex);
    assert e[..4] == EncodeI32(nameIndex) && e[4..8] == EncodeI32(x.bone) && e[8..20] == EncodeVector(x.origin);
    assert e[20..24] == EncodeU32(x.zOffset) && e[24..28] == EncodeU32(x.radius);
    assert e[28..40] == EncodeVector(x.dirUp) && e[40..52] == EncodeVector(x.dirForward);
    assert e[52..56] == EncodeI32(x.texture);
    ReadI32Of(e, EYEBALL_NAMEINDEX, nameIndex);
    ReadI32Of(e, EYEBALL_BONE, x.bone);
    ReadVectorOf(e, EYEBALL_ORG, x.origin);
    ReadU32Of(e, EYEBALL_ZOFFSET, x.zOffset);
    ReadU32Of(e, EYEBALL_RADIUS, x.radius);
    ReadVectorOf(e, EYEBALL_UP, x.dirUp);
    ReadVectorOf(e, EYEBALL_FORWARD, x.dirForward);
    ReadI32Of(e, EYEBALL_TEXTURE, x.texture);
  }

  /** An eyeball record followed by its NUL-terminated name, which the name offset 172 points at. */
  function EncodeEyeBall(x: StudioEyeBall): (bs: seq<Byte>)
    requires EyeBallFits(x)
    ensures |bs| == EYEBALL_SIZE + |x.name| + 1
  {
    EyeBallRecord(x, EYEBALL_SIZE) + FromChars(x.name) + [0]
  }

  /** The eyeball record and its name, laid out as EncodeEyeBall does, decode to the eyeball. */
  lemma {:induction false} EyeBallAtOf(buf: seq<Byte>, p: nat, x: StudioEyeBall)
    requires EyeBallFits(x) && p + EYEBALL_SIZE + |x.name| < |buf|
    requires buf[p..p + EYEBALL_SIZE] == EyeBallRecord(x, EYEBALL_SIZE)
    requires buf[p + EYEBALL_SIZE..p + EYEBALL_SIZE + |x.name|] == FromChars(x.name) && buf[p + EYEBALL_SIZE + |x.name|] == 0
    ensures EyeBallAt(buf, p) == Success(x)
  {
    var e := EyeBallRecord(x, EYEBALL_SIZE);
    EyeBallRecordFields(x, EYEBALL_SIZE);
    ReadWithin(buf, p, e, EYEBALL_NAMEINDEX);
    ReadWithin(buf, p, e, EYEBALL_BONE);
    ReadVectorWithin(buf, p, e, EYEBALL_ORG);
    ReadWithin(buf, p, e, EYEBALL_ZOFFSET);
    ReadWithin(buf, p, e, EYEBALL_RADIUS);
    ReadVectorWithin(buf, p, e, EYEBALL_UP);
    ReadVectorWithin(buf, p, e, EYEBALL_FORWARD);
    ReadWithin(buf, p, e, EYEBALL_TEXTURE);
    CStringOfName(buf, p + EYEBALL_SIZE, x.name);
  }

  /**
   * An eyeball is copied field for field, its name read through its
   * self-relative offset: the record written for any eyeball, anywhere in a
   * buffer, decodes to that eyeball.
   */
  lemma {:induction false} EyeBallRoundTrip(x: StudioEyeBall, pre: seq<Byte>, post: seq<Byte>)
    requires EyeBallFits(x)
    ensures EyeBallAt(pre + EncodeEyeBall(x) + post, |pre|) == Success(x)
  {
    NameAfterRecord(pre, EyeBallRecord(x, EYEBALL_SIZE), x.name, post);
    EyeBallAtOf(pre + EncodeEyeBall(x) + post, |pre|, x);
  }

  // ---- nested arrays, each resolved from its parent record ----

  /** Eyeball `i` of the studio model at `model`. */
  function EyeBallEntry(buf: seq<Byte>, model: nat, i: nat): (r: Result<StudioEyeBall>)
    requires model + MODEL_SIZE <= |buf|
  {
    var p :- PEyeball(buf, model, i);
    EyeBallAt(buf, p)
  }

  function EyeBallEntries(buf: seq<Byte>, model: nat): (f: nat -> Result<StudioEyeBall>)
    requires model + MODEL_SIZE <= |buf|
  {
    (i: nat) => EyeBallEntry(buf, model, i)
  }

  /** The scalar fields of the studio model at `rec`, copied as they are stored. */
  function StudioModelRecord(buf: seq<Byte>, rec: nat, name: string, eyeBalls: seq<StudioEyeBall>): (m: StudioModel)
    requires rec + MODEL_SIZE <= |buf|
  {
    StudioModel(
      name,
      ReadI32(buf, rec + MODEL_NUMMESHES),
      ReadI32(buf, rec + MODEL_MESHINDEX),
      ReadI32(buf, rec + MODEL_TYPE),
      ReadI32(buf, rec + MODEL_NUMVERTICES),
      ReadI32(buf, rec + MODEL_VERTEXINDEX),
      ReadI32(buf, rec + MODEL_TANGENTSINDEX),
      ReadI32(buf, rec + MODEL_NUMATTACHMENTS),
      ReadI32(buf, rec + MODEL_ATTACHMENTINDEX),
      ReadI32(buf, rec + MODEL_NUMEYEBALLS),
      ReadI32(buf, rec + MODEL_EYEBALLINDEX),
      ReadU32(buf, rec + MODEL_BOUNDINGRADIUS),
      eyeBalls)
  }

  /** What `CStudioModel::Cache` produces for the record at `rec`. */
  function StudioModelAt(buf: seq<Byte>, rec: nat): (r: Result<StudioModel>)
    requires rec + MODEL_SIZE <= |buf|
    ensures StudioModelName(buf, rec).Failure? ==> r == Failure(StudioModelName(buf, rec).error)
    ensures r.Success? ==> r.value.eyeBallCount == ReadI32(buf, rec + MODEL_NUMEYEBALLS)
                           && |r.value.eyeBalls| == Count(r.value.eyeBallCount)
  {
    var name :- StudioModelName(buf, rec);
    var eyeBalls :- Collect(Count(ReadI32(buf, rec + MODEL_NUMEYEBALLS)), EyeBallEntries(buf, rec));
    Success(StudioModelRecord(buf, rec, name, eyeBalls))
  }

  /**
   * A studio model decodes when its inline name does and each of its
   * `numeyeballs` eyeballs does; it then holds every scalar field as stored
   * and those eyeballs in order, each read at the address its own eyeball
   * index gives.
   */
  lemma {:induction false} StudioModelAtContents(buf: seq<Byte>, rec: nat)
    requires rec + MODEL_SIZE <= |buf|
    ensures StudioModelAt(buf, rec).Success? <==>
              StudioModelName(buf, rec).Success?
              && forall i :: 0 <= i < Count(ReadI32(buf, rec + MODEL_NUMEYEBALLS)) ==> EyeBallEntry(buf, rec, i).Success?
    ensures StudioModelAt(buf, rec).Success? ==>
              var m := StudioModelAt(buf, rec).value;
              m.name == StudioModelName(buf, rec).value
              && m.modelType == ReadI32(buf, rec + MODEL_TYPE)
              && m.boundingRadius == ReadU32(buf, rec + MODEL_BOUNDINGRADIUS)
              && m.meshCount == ReadI32(buf, rec + MODEL_NUMMESHES)
              && m.meshIndex == ReadI32(buf, rec + MODEL_MESHINDEX)
              && m.vertexCount == ReadI32(buf, rec + MODEL_NUMVERTICES)
              && m.vertexIndex == ReadI32(buf, rec + MODEL_VERTEXINDEX)
              && m.tangentsIndex == ReadI32(buf, rec + MODEL_TANGENTSINDEX)
              && m.attachmentCount == ReadI32(buf, rec + MODEL_NUMATTACHMENTS)
              && m.attachmentIndex == ReadI32(buf, rec + MODEL_ATTACHMENTINDEX)
              && m.eyeBallCount == ReadI32(buf, rec + MODEL_NUMEYEBALLS)
              && m.eyeBallIndex == ReadI32(buf, rec + MODEL_EYEBALLINDEX)
              && |m.eyeBalls| == Count(m.eyeBallCount)
              && forall i :: 0 <= i < |m.eyeBalls| ==>
                   PEyeball(buf, rec, i).Success? && Success(m.eyeBalls[i]) == EyeBallAt(buf, PEyeball(buf, rec, i).value)
  {
    var f := EyeBallEntries(buf, rec);
    var n := Count(ReadI32(buf, rec + MODEL_NUMEYEBALLS));
    CollectSucceeds(n, f);
    assert forall i :: 0 <= i < n ==> f(i) == EyeBallEntry(buf, rec, i);
    if StudioModelAt(buf, rec).Success? {
      var eyeBalls := Collect(n, f).value;
      assert StudioModelAt(buf, rec).value.eyeBalls == eyeBalls;
      forall i | 0 <= i < |eyeBalls|
        ensures PEyeball(buf, rec, i).Success? && Success(eyeBalls[i]) == EyeBallAt(buf, PEyeball(buf, rec, i).value)
      {
        assert eyeBalls[i] == f(i).value;
      }
    }
  }

  /** Whether a studio model can be stored: its name fits the inline 64-byte field with its NUL, its `int` fields fit a C++ `int`, and it holds `numeyeballs` eyeballs. */
  predicate StudioModelFits(m: StudioModel)
  {
    IsCName(m.name) && |m.name| < 64
    && INT32_MIN <= m.modelType < INT32_LIMIT
    && INT32_MIN <= m.meshCount < INT32_LIMIT && INT32_MIN <= m.meshIndex < INT32_LIMIT
    && INT32_MIN <= m.vertexCount < INT32_LIMIT && INT32_MIN <= m.vertexIndex < INT32_LIMIT
    && INT32_MIN <= m.tangentsIndex < INT32_LIMIT
    && INT32_MIN <= m.attachmentCount < INT32_LIMIT && INT32_MIN <= m.attachmentIndex < INT32_LIMIT
    && INT32_MIN <= m.eyeBallCount < INT32_LIMIT && INT32_MIN <= m.eyeBallIndex < INT32_LIMIT
    && |m.eyeBalls| == Count(m.eyeBallCount)
  }

  /** A name in a fixed 64-byte `char` field: its bytes, then NULs to the end of the field. */
  function InlineName(name: string): (bs: seq<Byte>)
    requires IsCName(name) && |name| < 64
    ensures |bs| == 64
  {
    FromChars(name) + Zeros(64 - |name|)
  }

  /** Bytes 64 .. 92 of `mstudiomodel_t`: type, bounding radius and the mesh, vertex and tangent fields. */
  function StudioModelGeometry(m: StudioModel): (bs: seq<Byte>)
    requires StudioModelFits(m)
    ensures |bs| == 28
  {
    EncodeI32(m.modelType) + EncodeU32(m.boundingRadius)
      + EncodeI32(m.meshCount) + EncodeI32(m.meshIndex)
      + EncodeI32(m.vertexCount) + EncodeI32(m.vertexIndex) + EncodeI32(m.tangentsIndex)
  }

  /** Bytes 92 .. 108 of `mstudiomodel_t`: the attachment and eyeball count/index pairs. */
  function StudioModelLinks(m: StudioModel): (bs: seq<Byte>)
    requires StudioModelFits(m)
    ensures |bs| == 16
  {
    EncodeI32(m.attachmentCount) + EncodeI32(m.attachmentIndex)
      + EncodeI32(m.eyeBallCount) + EncodeI32(m.eyeBallIndex)
  }

  /**
   * The 148-byte `mstudiomodel_t` holding `m`, in struct order: the inline
   * name, the scalar fields, then the vertex data and unused words, which
   * the decoder does not read, as zeros.
   */
  function EncodeStudioModel(m: StudioModel): (bs: seq<Byte>)
    requires StudioModelFits(m)
    ensures |bs| == MODEL_SIZE
  {
    InlineName(m.name) + StudioModelGeometry(m) + StudioModelLinks(m) + Zeros(40)
  }

  /** The geometry part read back as written, each field at its offset from the end of the name field. */
  lemma {:induction false} StudioModelGeometryFields(m: StudioModel)
    requires StudioModelFits(m)
    ensures var g := StudioModelGeometry(m);
            && ReadI32(g, MODEL_TYPE - 64) == m.modelType && ReadU32(g, MODEL_BOUNDINGRADIUS - 64) == m.boundingRadius
            && ReadI32(g, MODEL_NUMMESHES - 64) == m.meshCount && ReadI32(g, MODEL_MESHINDEX - 64) == m.meshIndex
            && ReadI32(g, MODEL_NUMVERTICES - 64) == m.vertexCount && ReadI32(g, MODEL_VERTEXINDEX - 64) == m.vertexIndex
            && ReadI32(g, MODEL_TANGENTSINDEX - 64) == m.tangentsIndex
  {
    var g := StudioModelGeometry(m);
    ReadI32Bytes(g, MODEL_TYPE - 64, m.modelType);
    ReadU32Bytes(g, MODEL_BOUNDINGRADIUS - 64, m.boundingRadius);
    ReadI32Bytes(g, MODEL_NUMMESHES - 64, m.meshCount);
    ReadI32Bytes(g, MODEL_MESHINDEX - 64, m.meshIndex);
    ReadI32Bytes(g, MODEL_NUMVERTICES - 64, m.vertexCount);
    ReadI32Bytes(g, MODEL_VERTEXINDEX - 64, m.vertexIndex);
    ReadI32Bytes(g, MODEL_TANGENTSINDEX - 64, m.tangentsIndex);
  }

  /** The attachment and eyeball pairs read back as written, each at its offset from byte 92. */
  lemma {:induction false} StudioModelLinksFields(m: StudioModel)
    requires StudioModelFits(m)
    ensures var l := StudioModelLinks(m);
            && ReadI32(l, MODEL_NUMATTACHMENTS - 92) == m.attachmentCount
            && ReadI32(l, MODEL_ATTACHMENTINDEX - 92) == m.attachmentIndex
            && ReadI32(l, MODEL_NUMEYEBALLS - 92) == m.eyeBallCount
            && ReadI32(l, MODEL_EYEBALLINDEX - 92) == m.eyeBallIndex
  {
    var l := StudioModelLinks(m);
    ReadI32Bytes(l, MODEL_NUMATTACHMENTS - 92, m.attachmentCount);
    ReadI32Bytes(l, MODEL_ATTACHMENTINDEX - 92, m.attachmentIndex);
    ReadI32Bytes(l, MODEL_NUMEYEBALLS - 92, m.eyeBallCount);
    ReadI32Bytes(l, MODEL_EYEBALLINDEX - 92, m.eyeBallIndex);
  }

  /** The geometry fields of a buffer holding an encoded studio model at `p`. */
  lemma {:induction false} StudioModelGeometryAt(buf: seq<Byte>, p: nat, m: StudioModel)
    requires StudioModelFits(m) && p + MODEL_SIZE <= |buf| && buf[p..p + MODEL_SIZE] == EncodeStudioModel(m)
    ensures ReadI32(buf, p + MODEL_TYPE) == m.modelType && ReadU32(buf, p + MODEL_BOUNDINGRADIUS) == m.boundingRadius
    ensures ReadI32(buf, p + MODEL_NUMMESHES) == m.meshCount && ReadI32(buf, p + MODEL_MESHINDEX) == m.meshIndex
    ensures ReadI32(buf, p + MODEL_NUMVERTICES) == m.vertexCount && ReadI32(buf, p + MODEL_VERTEXINDEX) == m.vertexIndex
    ensures ReadI32(buf, p + MODEL_TANGENTSINDEX) == m.tangentsIndex
  {
    var e, g := EncodeStudioModel(m), StudioModelGeometry(m);
    assert e[64..92] == g;
    StudioModelGeometryFields(m);
    ReadNested(buf, p, e, 64, g, MODEL_TYPE - 64);
    ReadNested(buf, p, e, 64, g, MODEL_BOUNDINGRADIUS - 64);
    ReadNested(buf, p, e, 64, g, MODEL_NUMMESHES - 64);
    ReadNested(buf, p, e, 64, g, MODEL_MESHINDEX - 64);
    ReadNested(buf, p, e, 64, g, MODEL_NUMVERTICES - 64);
    ReadNested(buf, p, e, 64, g, MODEL_VERTEXINDEX - 64);
    ReadNested(buf, p, e, 64, g, MODEL_TANGENTSINDEX - 64);
  }

  /** The attachment and eyeball fields of a buffer holding an encoded studio model at `p`. */
  lemma {:induction false} StudioModelLinksAt(buf: seq<Byte>, p: nat, m: StudioModel)
    requires StudioModelFits(m) && p + MODEL_SIZE <= |buf| && buf[p..p + MODEL_SIZE] == EncodeStudioModel(m)
    ensures ReadI32(buf, p + MODEL_NUMATTACHMENTS) == m.attachmentCount
    ensures ReadI32(buf, p + MODEL_ATTACHMENTINDEX) == m.attachmentIndex
    ensures ReadI32(buf, p + MODEL_NUMEYEBALLS) == m.eyeBallCount && ReadI32(buf, p + MODEL_EYEBALLINDEX) == m.eyeBallIndex
  {
    var e, l := EncodeStudioModel(m), StudioModelLinks(m);
    assert e[92..108] == l;
    StudioModelLinksFields(m);
    ReadNested(buf, p, e, 92, l, MODEL_NUMATTACHMENTS - 92);
    ReadNested(buf, p, e, 92, l, MODEL_ATTACHMENTINDEX - 92);
    ReadNested(buf, p, e, 92, l, MODEL_NUMEYEBALLS - 92);
    ReadNested(buf, p, e, 92, l, MODEL_EYEBALLINDEX - 92);
  }

  /** The inline name of a buffer holding an encoded studio model at `p`, and its terminating NUL. */
  lemma {:induction false} StudioModelNameAt(buf: seq<Byte>, p: nat, m: StudioModel)
    requires StudioModelFits(m) && p + MODEL_SIZE <= |buf| && buf[p..p + MODEL_SIZE] == EncodeStudioModel(m)
    ensures buf[p + MODEL_NAME..p + MODEL_NAME + |m.name|] == FromChars(m.name) && buf[p + MODEL_NAME + |m.name|] == 0
  {
    var e, name := EncodeStudioModel(m), FromChars(m.name);
    assert buf[p..p + |name|] == name by {
      forall k | 0 <= k < |name|
        ensures buf[p + k] == name[k]
      {
        assert buf[p + k] == e[k];
      }
    }
    assert buf[p + |name|] == e[|name|];
  }

  /** The inline name and the scalar fields of an encoded studio model read back as written. */
  lemma {:induction false} StudioModelRecordFields(m: StudioModel)
    requires StudioModelFits(m)
    ensures var e := EncodeStudioModel(m);
            && e[MODEL_NAME..MODEL_NAME + |m.name|] == FromChars(m.name) && e[MODEL_NAME + |m.name|] == 0
            && ReadI32(e, MODEL_TYPE) == m.modelType && ReadU32(e, MODEL_BOUNDINGRADIUS) == m.boundingRadius
            && ReadI32(e, MODEL_NUMMESHES) == m.meshCount && ReadI32(e, MODEL_MESHINDEX) == m.meshIndex
            && ReadI32(e, MODEL_NUMVERTICES) == m.vertexCount && ReadI32(e, MODEL_VERTEXINDEX) == m.vertexIndex
            && ReadI32(e, MODEL_TANGENTSINDEX) == m.tangentsIndex
            && ReadI32(e, MODEL_NUMATTACHMENTS) == m.attachmentCount
            && ReadI32(e, MODEL_ATTACHMENTINDEX) == m.attachmentIndex
            && ReadI32(e, MODEL_NUMEYEBALLS) == m.eyeBallCount && ReadI32(e, MODEL_EYEBALLINDEX) == m.eyeBallIndex
  {
    var e := EncodeStudioModel(m);
    assert e[0..MODEL_SIZE] == e;
    StudioModelNameAt(e, 0, m);
    StudioModelGeometryAt(e, 0, m);
    StudioModelLinksAt(e, 0, m);
  }

  /**
   * A buffer holding an encoded studio model at `p` decodes to that model
   * once each of its eyeballs decodes to the eyeball it holds.
   */
  lemma {:induction false} StudioModelAtOf(buf: seq<Byte>, p: nat, m: StudioModel)
    requires StudioModelFits(m) && p + MODEL_SIZE <= |buf|
    requires buf[p..p + MODEL_SIZE] == EncodeStudioModel(m)
    requires forall i :: 0 <= i < |m.eyeBalls| ==> EyeBallEntry(buf, p, i) == Success(m.eyeBalls[i])
    ensures StudioModelAt(buf, p) == Success(m)
  {
    StudioModelNameAt(buf, p, m);
    StudioModelGeometryAt(buf, p, m);
    StudioModelLinksAt(buf, p, m);
    CStringOfName(buf, p + MODEL_NAME, m.name);
    var f := EyeBallEntries(buf, p);
    var n := Count(m.eyeBallCount);
    assert forall i :: 0 <= i < n ==> f(i) == EyeBallEntry(buf, p, i);
    CollectSucceeds(n, f);
    assert Collect(n, f).value == m.eyeBalls;
  }

  /**
   * A studio model's inline name and scalar fields are copied from its
   * record, its eyeballs resolved through its own eyeball index: the record
   * written for any model, anywhere in a buffer, decodes to that model once
   * its eyeballs decode.
   */
  lemma {:induction false} StudioModelRoundTrip(m: StudioModel, pre: seq<Byte>, post: seq<Byte>)
    requires StudioModelFits(m)
    requires var buf := pre + EncodeStudioModel(m) + post;
             forall i :: 0 <= i < |m.eyeBalls| ==> EyeBallEntry(buf, |pre|, i) == Success(m.eyeBalls[i])
    ensures StudioModelAt(pre + EncodeStudioModel(m) + post, |pre|) == Success(m)
  {
    var buf := pre + EncodeStudioModel(m) + post;
    assert buf[|pre|..|pre| + MODEL_SIZE] == EncodeStudioModel(m);
    StudioModelAtOf(buf, |pre|, m);
  }

  /** `CStudioModel::Cache` */
  method CacheStudioModel(buf: seq<Byte>, rec: nat) returns (r: Result<StudioModel>)
    requires rec + MODEL_SIZE <= |buf|
    ensures r == StudioModelAt(buf, rec)
  {
    var name := StudioModelName(buf, rec);
    if name.Failure? {
      return Failure(name.error);
    }
    var eyeBallCount := ReadI32(buf, rec + MODEL_NUMEYEBALLS);
    var eyeBalls := CollectLoop(eyeBallCount, EyeBallEntries(buf, rec));
    if eyeBalls.Failure? {
      return Failure(eyeBalls.error);
    }
    r := Success(StudioModelRecord(buf, rec, name.value, eyeBalls.value));
  }

  /** Studio model `i` of the body part at `part`. */
  function ModelEntry(buf: seq<Byte>, part: nat, i: nat): (r: Result<StudioModel>)
    requires part + BODYPARTS_SIZE <= |buf|
  {
    var p :- PModel(buf, part, i);
    StudioModelAt(buf, p)
  }

  function ModelEntries(buf: seq<Byte>, part: nat): (f: nat -> Result<StudioModel>)
    requires part + BODYPARTS_SIZE <= |buf|
  {
    (i: nat) => ModelEntry(buf, part, i)
  }

  /** What `CModelBodyParts::Cache` produces for the record at `rec`. */
  function BodyPartsAt(buf: seq<Byte>, rec: nat): (r: Result<ModelBodyParts>)
    requires rec + BODYPARTS_SIZE <= |buf|
    ensures PszName(buf, rec + BODYPARTS_NAMEINDEX).Failure? ==> r == Failure(PszName(buf, rec + BODYPARTS_NAMEINDEX).error)
    ensures r.Success? ==> r.value.modelCount == ReadI32(buf, rec + BODYPARTS_NUMMODELS)
                           && |r.value.studioModels| == Count(r.value.modelCount)
  {
    var name :- PszName(buf, rec + BODYPARTS_NAMEINDEX);
    var modelCount := ReadI32(buf, rec + BODYPARTS_NUMMODELS);
    var models :- Collect(Count(modelCount), ModelEntries(buf, rec));
    Success(ModelBodyParts(
      name,
      modelCount,
      ReadI32(buf, rec + BODYPARTS_BASE),
      ReadI32(buf, rec + BODYPARTS_MODELINDEX),
      models))
  }

  /**
   * A body part decodes when its name and each of its `nummodels` studio
   * models do; it then holds those models in order, each read at the address
   * its own model index gives.
   */
  lemma {:induction false} BodyPartsAtContents(buf: seq<Byte>, rec: nat)
    requires rec + BODYPARTS_SIZE <= |buf|
    ensures BodyPartsAt(buf, rec).Success? <==>
              PszName(buf, rec + BODYPARTS_NAMEINDEX).Success?
              && forall i :: 0 <= i < Count(ReadI32(buf, rec + BODYPARTS_NUMMODELS)) ==> ModelEntry(buf, rec, i).Success?
    ensures BodyPartsAt(buf, rec).Success? ==>
              var b := BodyPartsAt(buf, rec).value;
              b.name == PszName(buf, rec + BODYPARTS_NAMEINDEX).value
              && b.modelCount == ReadI32(buf, rec + BODYPARTS_NUMMODELS)
              && b.base == ReadI32(buf, rec + BODYPARTS_BASE)
              && b.modelIndex == ReadI32(buf, rec + BODYPARTS_MODELINDEX)
              && |b.studioModels| == Count(b.modelCount)
              && forall i :: 0 <= i < |b.studioModels| ==>
                   PModel(buf, rec, i).Success? && Success(b.studioModels[i]) == StudioModelAt(buf, PModel(buf, rec, i).value)
  {
    var f := ModelEntries(buf, rec);
    var n := Count(ReadI32(buf, rec + BODYPARTS_NUMMODELS));
    CollectSucceeds(n, f);
    assert forall i :: 0 <= i < n ==> f(i) == ModelEntry(buf, rec, i);
    if BodyPartsAt(buf, rec).Success? {
      var models := Collect(n, f).value;
      assert BodyPartsAt(buf, rec).value.studioModels == models;
      forall i | 0 <= i < |models|
        ensures PModel(buf, rec, i).Success? && Success(models[i]) == StudioModelAt(buf, PModel(buf, rec, i).value)
      {
        assert models[i] == f(i).value;
      }
    }
  }

  /** Whether a body part can be stored: its `int` fields fit a C++ `int`, its name a C string, and it holds `nummodels` models. */
  predicate BodyPartFits(b: ModelBodyParts)
  {
    IsCName(b.name) && INT32_MIN <= b.modelCount < INT32_LIMIT && INT32_MIN <= b.base < INT32_LIMIT
    && INT32_MIN <= b.modelIndex < INT32_LIMIT && |b.studioModels| == Count(b.modelCount)
  }

  /** The 16-byte `mstudiobodyparts_t` record holding `b` with name offset `nameIndex`, in struct order. */
  function BodyPartRecord(b: ModelBodyParts, nameIndex: int): (bs: seq<Byte>)
    requires BodyPartFits(b) && INT32_MIN <= nameIndex < INT32_LIMIT
    ensures |bs| == BODYPARTS_SIZE
  {
    EncodeI32(nameIndex) + EncodeI32(b.modelCount) + EncodeI32(b.base) + EncodeI32(b.modelIndex)
  }

  /** The fields of a body part record read back as the values written into it. */
  lemma {:induction false} BodyPartRecordFields(b: ModelBodyParts, nameIndex: int)
    requires BodyPartFits(b) && INT32_MIN <= nameIndex < INT32_LIMIT
    ensures var e := BodyPartRecord(b, nameIndex);
            && ReadI32(e, BODYPARTS_NAMEINDEX) == nameIndex
            && ReadI32(e, BODYPARTS_NUMMODELS) == b.modelCount
            && ReadI32(e, BODYPARTS_BASE) == b.base
            && ReadI32(e, BODYPARTS_MODELINDEX) == b.modelIndex
  {
    var e := BodyPartRecord(b, nameIndex);
    ReadI32Bytes(e, BODYPARTS_NAMEINDEX, nameIndex);
    ReadI32Bytes(e, BODYPARTS_NUMMODELS, b.modelCount);
    ReadI32Bytes(e, BODYPARTS_BASE, b.base);
    ReadI32Bytes(e, BODYPARTS_MODELINDEX, b.modelIndex);
  }

  /** A body part record followed by its NUL-terminated name, which the name offset 16 points at. */
  function EncodeBodyPart(b: ModelBodyParts): (bs: seq<Byte>)
    requires BodyPartFits(b)
    ensures |bs| == BODYPARTS_SIZE + |b.name| + 1
  {
    BodyPartRecord(b, BODYPARTS_SIZE) + FromChars(b.name) + [0]
  }

  /**
   * The body part record and its name, laid out as EncodeBodyPart does,
   * decode to the body part once each of its models decodes to the model it holds.
   */
  lemma {:induction false} BodyPartAtOf(buf: seq<Byte>, p: nat, b: ModelBodyParts)
    requires BodyPartFits(b) && p + BODYPARTS_SIZE + |b.name| < |buf|
    requires buf[p..p + BODYPARTS_SIZE] == BodyPartRecord(b, BODYPARTS_SIZE)
    requires buf[p + BODYPARTS_SIZE..p + BODYPARTS_SIZE + |b.name|] == FromChars(b.name)
             && buf[p + BODYPARTS_SIZE + |b.name|] == 0
    requires forall i :: 0 <= i < |b.studioModels| ==> ModelEntry(buf, p, i) == Success(b.studioModels[i])
    ensures BodyPartsAt(buf, p) == Success(b)
  {
    var e := BodyPartRecord(b, BODYPARTS_SIZE);
    BodyPartRecordFields(b, BODYPARTS_SIZE);
    ReadWithin(buf, p, e, BODYPARTS_NAMEINDEX);
    ReadWithin(buf, p, e, BODYPARTS_NUMMODELS);
    ReadWithin(buf, p, e, BODYPARTS_BASE);
    ReadWithin(buf, p, e, BODYPARTS_MODELINDEX);
    CStringOfName(buf, p + BODYPARTS_SIZE, b.name);
    var f := ModelEntries(buf, p);
    var n := Count(b.modelCount);
    assert forall i :: 0 <= i < n ==> f(i) == ModelEntry(buf, p, i);
    CollectSucceeds(n, f);
    assert Collect(n, f).value == b.studioModels;
  }

  /**
   * A body part's name and fields are copied from its record, its models
   * resolved through its own model index: the record written for any body
   * part, anywhere in a buffer, decodes to that body part once its models decode.
   */
  lemma {:induction false} BodyPartRoundTrip(b: ModelBodyParts, pre: seq<Byte>, post: seq<Byte>)
    requires BodyPartFits(b)
    requires var buf := pre + EncodeBodyPart(b) + post;
             forall i :: 0 <= i < |b.studioModels| ==> ModelEntry(buf, |pre|, i) == Success(b.studioModels[i])
    ensures BodyPartsAt(pre + EncodeBodyPart(b) + post, |pre|) == Success(b)
  {
    NameAfterRecord(pre, BodyPartRecord(b, BODYPARTS_SIZE), b.name, post);
    BodyPartAtOf(pre + EncodeBodyPart(b) + post, |pre|, b);
  }

  /** `CModelBodyParts::Cache` */
  method CacheBodyParts(buf: seq<Byte>, rec: nat) returns (r: Result<ModelBodyParts>)
    requires rec + BODYPARTS_SIZE <= |buf|
    ensures r == BodyPartsAt(buf, rec)
  {
    var name := PszName(buf, rec + BODYPARTS_NAMEINDEX);
    if name.Failure? {
      return Failure(name.error);
    }
    var base := ReadI32(buf, rec + BODYPARTS_BASE);
    var modelCount := ReadI32(buf, rec + BODYPARTS_NUMMODELS);
    var modelIndex := ReadI32(buf, rec + BODYPARTS_MODELINDEX);
    var models := CollectLoop(modelCount, ModelEntries(buf, rec));
    if models.Failure? {
      return Failure(models.error);
    }
    r := Success(ModelBodyParts(name.value, modelCount, base, modelIndex, models.value));
  }

  /** Bbox `i` of the hitbox set at `hitboxSet`. */
  function HitBoxEntry(buf: seq<Byte>, hitboxSet: nat, i: nat): (r: Result<BBox>)
    requires hitboxSet + HITBOXSET_SIZE <= |buf|
  {
    var p :- PHitbox(buf, hitboxSet, i);
    BBoxAt(buf, p)
  }

  function HitBoxEntries(buf: seq<Byte>, hitboxSet: nat): (f: nat -> Result<BBox>)
    requires hitboxSet + HITBOXSET_SIZE <= |buf|
  {
    (i: nat) => HitBoxEntry(buf, hitboxSet, i)
  }

  /** What `CHitBoxSet::Cache` produces for the record at `rec`. */
  function HitBoxSetAt(buf: seq<Byte>, rec: nat): (r: Result<HitBoxSet>)
    requires rec + HITBOXSET_SIZE <= |buf|
    ensures PszName(buf, rec + HITBOXSET_NAMEINDEX).Failure? ==> r == Failure(PszName(buf, rec + HITBOXSET_NAMEINDEX).error)
    ensures r.Success? ==> r.value.hitBoxCount == ReadI32(buf, rec + HITBOXSET_NUMHITBOXES)
                           && |r.value.hitBoxes| == Count(r.value.hitBoxCount)
  {
    var name :- PszName(buf, rec + HITBOXSET_NAMEINDEX);
    var hitBoxCount := ReadI32(buf, rec + HITBOXSET_NUMHITBOXES);
    var boxes :- Collect(Count(hitBoxCount), HitBoxEntries(buf, rec));
    Success(HitBoxSet(boxes, name, hitBoxCount, ReadI32(buf, rec + HITBOXSET_HITBOXINDEX)))
  }

  /**
   * A hitbox set decodes when its name and each of its `numhitboxes` boxes
   * do; it then holds those boxes in order, each read at the address its own
   * hitbox index gives.
   */
  lemma {:induction false} HitBoxSetAtContents(buf: seq<Byte>, rec: nat)
    requires rec + HITBOXSET_SIZE <= |buf|
    ensures HitBoxSetAt(buf, rec).Success? <==>
              PszName(buf, rec + HITBOXSET_NAMEINDEX).Success?
              && forall i :: 0 <= i < Count(ReadI32(buf, rec + HITBOXSET_NUMHITBOXES)) ==> HitBoxEntry(buf, rec, i).Success?
    ensures HitBoxSetAt(buf, rec).Success? ==>
              var s := HitBoxSetAt(buf, rec).value;
              s.name == PszName(buf, rec + HITBOXSET_NAMEINDEX).value
              && s.hitBoxCount == ReadI32(buf, rec + HITBOXSET_NUMHITBOXES)
              && s.hitBoxIndex == ReadI32(buf, rec + HITBOXSET_HITBOXINDEX)
              && |s.hitBoxes| == Count(s.hitBoxCount)
              && forall i :: 0 <= i < |s.hitBoxes| ==>
                   PHitbox(buf, rec, i).Success? && Success(s.hitBoxes[i]) == BBoxAt(buf, PHitbox(buf, rec, i).value)
  {
    var f := HitBoxEntries(buf, rec);
    var n := Count(ReadI32(buf, rec + HITBOXSET_NUMHITBOXES));
    CollectSucceeds(n, f);
    assert forall i :: 0 <= i < n ==> f(i) == HitBoxEntry(buf, rec, i);
    if HitBoxSetAt(buf, rec).Success? {
      var boxes := Collect(n, f).value;
      assert HitBoxSetAt(buf, rec).value.hitBoxes == boxes;
      forall i | 0 <= i < |boxes|
        ensures PHitbox(buf, rec, i).Success? && Success(boxes[i]) == BBoxAt(buf, PHitbox(buf, rec, i).value)
      {
        assert boxes[i] == f(i).value;
      }
    }
  }

  /** Whether a hitbox set can be stored: its `int` fields fit a C++ `int`, its name a C string, and it holds `numhitboxes` boxes. */
  predicate HitBoxSetFits(s: HitBoxSet)
  {
    IsCName(s.name) && INT32_MIN <= s.hitBoxCount < INT32_LIMIT && INT32_MIN <= s.hitBoxIndex < INT32_LIMIT
    && |s.hitBoxes| == Count(s.hitBoxCount)
  }

  /** The 12-byte `mstudiohitboxset_t` record holding `s` with name offset `nameIndex`, in struct order. */
  function HitBoxSetRecord(s: HitBoxSet, nameIndex: int): (bs: seq<Byte>)
    requires HitBoxSetFits(s) && INT32_MIN <= nameIndex < INT32_LIMIT
    ensures |bs| == HITBOXSET_SIZE
  {
    EncodeI32(nameIndex) + EncodeI32(s.hitBoxCount) + EncodeI32(s.hitBoxIndex)
  }

  /** The fields of a hitbox set record read back as the values written into it. */
  lemma {:induction false} HitBoxSetRecordFields(s: HitBoxSet, nameIndex: int)
    requires HitBoxSetFits(s) && INT32_MIN <= nameIndex < INT32_LIMIT
    ensures var e := HitBoxSetRecord(s, nameIndex);
            && ReadI32(e, HITBOXSET_NAMEINDEX) == nameIndex
            && ReadI32(e, HITBOXSET_NUMHITBOXES) == s.hitBoxCount
            && ReadI32(e, HITBOXSET_HITBOXINDEX) == s.hitBoxIndex
  {
    var e := HitBoxSetRecord(s, nameIndex);
    ReadI32Bytes(e, HITBOXSET_NAMEINDEX, nameIndex);
    ReadI32Bytes(e, HITBOXSET_NUMHITBOXES, s.hitBoxCount);
    ReadI32Bytes(e, HITBOXSET_HITBOXINDEX, s.hitBoxIndex);
  }

  /** A hitbox set record followed by its NUL-terminated name, which the name offset 12 points at. */
  function EncodeHitBoxSet(s: HitBoxSet): (bs: seq<Byte>)
    requires HitBoxSetFits(s)
    ensures |bs| == HITBOXSET_SIZE + |s.name| + 1
  {
    HitBoxSetRecord(s, HITBOXSET_SIZE) + FromChars(s.name) + [0]
  }

  /**
   * The hitbox set record and its name, laid out as EncodeHitBoxSet does,
   * decode to the set once each of its boxes decodes to the box it holds.
   */
  lemma {:induction false} HitBoxSetAtOf(buf: seq<Byte>, p: nat, s: HitBoxSet)
    requires HitBoxSetFits(s) && p + HITBOXSET_SIZE + |s.name| < |buf|
    requires buf[p..p + HITBOXSET_SIZE] == HitBoxSetRecord(s, HITBOXSET_SIZE)
    requires buf[p + HITBOXSET_SIZE..p + HITBOXSET_SIZE + |s.name|] == FromChars(s.name)
             && buf[p + HITBOXSET_SIZE + |s.name|] == 0
    requires forall i :: 0 <= i < |s.hitBoxes| ==> HitBoxEntry(buf, p, i) == Success(s.hitBoxes[i])
    ensures HitBoxSetAt(buf, p) == Success(s)
  {
    var e := HitBoxSetRecord(s, HITBOXSET_SIZE);
    HitBoxSetRecordFields(s, HITBOXSET_SIZE);
    ReadWithin(buf, p, e, HITBOXSET_NAMEINDEX);
    ReadWithin(buf, p, e, HITBOXSET_NUMHITBOXES);
    ReadWithin(buf, p, e, HITBOXSET_HITBOXINDEX);
    CStringOfName(buf, p + HITBOXSET_SIZE, s.name);
    var f := HitBoxEntries(buf, p);
    var n := Count(s.hitBoxCount);
    assert forall i :: 0 <= i < n ==> f(i) == HitBoxEntry(buf, p, i);
    CollectSucceeds(n, f);
    assert Collect(n, f).value == s.hitBoxes;
  }

  /**
   * A hitbox set's name and fields are copied from its record, its boxes
   * resolved through its own box index: the record written for any set,
   * anywhere in a buffer, decodes to that set once its boxes decode.
   */
  lemma {:induction false} HitBoxSetRoundTrip(s: HitBoxSet, pre: seq<Byte>, post: seq<Byte>)
    requires HitBoxSetFits(s)
    requires var buf := pre + EncodeHitBoxSet(s) + post;
             forall i :: 0 <= i < |s.hitBoxes| ==> HitBoxEntry(buf, |pre|, i) == Success(s.hitBoxes[i])
    ensures HitBoxSetAt(pre + EncodeHitBoxSet(s) + post, |pre|) == Success(s)
  {
    NameAfterRecord(pre, HitBoxSetRecord(s, HITBOXSET_SIZE), s.name, post);
    HitBoxSetAtOf(pre + EncodeHitBoxSet(s) + post, |pre|, s);
  }

  /** `CHitBoxSet::Cache` */
  method CacheHitBoxSet(buf: seq<Byte>, rec: nat) returns (r: Result<HitBoxSet>)
    requires rec + HITBOXSET_SIZE <= |buf|
    ensures r == HitBoxSetAt(buf, rec)
  {
    var name := PszName(buf, rec + HITBOXSET_NAMEINDEX);
    if name.Failure? {
      return Failure(name.error);
    }
    var hitBoxCount := ReadI32(buf, rec + HITBOXSET_NUMHITBOXES);
    var hitBoxIndex := ReadI32(buf, rec + HITBOXSET_HITBOXINDEX);
    var boxes := CollectLoop(hitBoxCount, HitBoxEntries(buf, rec));
    if boxes.Failure? {
      return Failure(boxes.error);
    }
    r := Success(HitBoxSet(boxes.value, name.value, hitBoxCount, hitBoxIndex));
  }

  // ---- header-level arrays ----

  /** Texture `i`: the name string of texture record `i`, case preserved. */
  function TextureEntry(buf: seq<Byte>, h: Header, i: nat): (r: Result<string>)
    requires i < h.numTextures
  {
    var p :- PTexture(buf, h, i);
    PszName(buf, p + TEXTURE_NAMEINDEX)
  }

  function TextureEntries(buf: seq<Byte>, h: Header): (f: nat --> Result<string>)
  {
    (i: nat) requires i < h.numTextures => TextureEntry(buf, h, i)
  }

  /** The material list: one name per texture record, none when the count is below 1. */
  function Textures(buf: seq<Byte>, h: Header): (r: Result<seq<string>>)
    ensures r.Success? ==> |r.value| == Count(h.numTextures)
  {
    Collect(Count(h.numTextures), TextureEntries(buf, h))
  }

  /** Bone `i`, resolved from the header. */
  function BoneEntry(buf: seq<Byte>, h: Header, i: nat): (r: Result<ModelBone>)
    requires i < h.numBones
  {
    var p :- PBone(buf, h, i);
    BoneAt(buf, p)
  }

  function BoneEntries(buf: seq<Byte>, h: Header): (f: nat --> Result<ModelBone>)
  {
    (i: nat) requires i < h.numBones => BoneEntry(buf, h, i)
  }

  /** The bone list: one bone per bone record, none when the count is below 1. */
  function Bones(buf: seq<Byte>, h: Header): (r: Result<seq<ModelBone>>)
    ensures r.Success? ==> |r.value| == Count(h.numBones)
  {
    Collect(Count(h.numBones), BoneEntries(buf, h))
  }

  /** Bone controller `i`, resolved from the header. */
  function BoneControllerEntry(buf: seq<Byte>, h: Header, i: nat): (r: Result<BoneController>)
    requires i < h.numBoneControllers
  {
    var p :- PBoneController(buf, h, i);
    Success(BoneControllerAt(buf, p))
  }

  function BoneControllerEntries(buf: seq<Byte>, h: Header): (f: nat --> Result<BoneController>)
  {
    (i: nat) requires i < h.numBoneControllers => BoneControllerEntry(buf, h, i)
  }

  /** The controller list: one controller per controller record, none when the count is below 1. */
  function BoneControllers(buf: seq<Byte>, h: Header): (r: Result<seq<BoneController>>)
    ensures r.Success? ==> |r.value| == Count(h.numBoneControllers)
  {
    Collect(Count(h.numBoneControllers), BoneControllerEntries(buf, h))
  }

  /** Body part `i`, resolved from the header. */
  function BodyPartEntry(buf: seq<Byte>, h: Header, i: nat): (r: Result<ModelBodyParts>)
  {
    var p :- PBodyPart(buf, h, i);
    BodyPartsAt(buf, p)
  }

  function BodyPartEntries(buf: seq<Byte>, h: Header): (f: nat -> Result<ModelBodyParts>)
  {
    (i: nat) => BodyPartEntry(buf, h, i)
  }

  /** The body part list: one body part per body part record, none when the count is below 1. */
  function BodyParts(buf: seq<Byte>, h: Header): (r: Result<seq<ModelBodyParts>>)
    ensures r.Success? ==> |r.value| == Count(h.numBodyParts)
  {
    Collect(Count(h.numBodyParts), BodyPartEntries(buf, h))
  }

  /** Hitbox set `i`, resolved from the header. */
  function HitBoxSetEntry(buf: seq<Byte>, h: Header, i: nat): (r: Result<HitBoxSet>)
    requires i < h.numHitboxSets
  {
    var p :- PHitboxSet(buf, h, i);
    HitBoxSetAt(buf, p)
  }

  function HitBoxSetEntries(buf: seq<Byte>, h: Header): (f: nat --> Result<HitBoxSet>)
  {
    (i: nat) requires i < h.numHitboxSets => HitBoxSetEntry(buf, h, i)
  }

  /** The hitbox set list: one set per hitbox set record, none when the count is below 1. */
  function HitBoxSets(buf: seq<Byte>, h: Header): (r: Result<seq<HitBoxSet>>)
    ensures r.Success? ==> |r.value| == Count(h.numHitboxSets)
  {
    Collect(Count(h.numHitboxSets), HitBoxSetEntries(buf, h))
  }

  /** The material list has one entry per texture record, each the record's name string. None is kept for a count below 1, and any failing entry fails the list. */
  lemma {:induction false} TexturesContents(buf: seq<Byte>, h: Header)
    ensures Textures(buf, h).Success? <==> forall i :: 0 <= i < Count(h.numTextures) ==> TextureEntry(buf, h, i).Success?
    ensures Textures(buf, h).Success? ==>
              var v := Textures(buf, h).value;
              |v| == Count(h.numTextures)
              && forall i :: 0 <= i < |v| ==> PTexture(buf, h, i).Success? && Success(v[i]) == PszName(buf, PTexture(buf, h, i).value)
  {
    var f := TextureEntries(buf, h);
    var n := Count(h.numTextures);
    CollectSucceeds(n, f);
    assert forall i :: 0 <= i < n ==> f(i) == TextureEntry(buf, h, i);
    if Textures(buf, h).Success? {
      var v := Textures(buf, h).value;
      forall i | 0 <= i < |v|
        ensures PTexture(buf, h, i).Success? && Success(v[i]) == PszName(buf, PTexture(buf, h, i).value)
      {
        assert v[i] == f(i).value;
      }
    }
  }

  /** The bone list has one entry per bone record, bone `i` read at `boneindex + i * 216`. None is kept for a count below 1, and any failing entry fails the list. */
  lemma {:induction false} BonesContents(buf: seq<Byte>, h: Header)
    ensures Bones(buf, h).Success? <==> forall i :: 0 <= i < Count(h.numBones) ==> BoneEntry(buf, h, i).Success?
    ensures Bones(buf, h).Success? ==>
              var v := Bones(buf, h).value;
              |v| == Count(h.numBones)
              && forall i :: 0 <= i < |v| ==> PBone(buf, h, i).Success? && Success(v[i]) == BoneAt(buf, PBone(buf, h, i).value)
  {
    var f := BoneEntries(buf, h);
    var n := Count(h.numBones);
    CollectSucceeds(n, f);
    assert forall i :: 0 <= i < n ==> f(i) == BoneEntry(buf, h, i);
    if Bones(buf, h).Success? {
      var v := Bones(buf, h).value;
      forall i | 0 <= i < |v|
        ensures PBone(buf, h, i).Success? && Success(v[i]) == BoneAt(buf, PBone(buf, h, i).value)
      {
        assert v[i] == f(i).value;
      }
    }
  }

  /** The controller list has one entry per controller record, copied field for field. None is kept for a count below 1, and any failing entry fails the list. */
  lemma {:induction false} BoneControllersContents(buf: seq<Byte>, h: Header)
    ensures BoneControllers(buf, h).Success? <==> forall i :: 0 <= i < Count(h.numBoneControllers) ==> BoneControllerEntry(buf, h, i).Success?
    ensures BoneControllers(buf, h).Success? ==>
              var v := BoneControllers(buf, h).value;
              |v| == Count(h.numBoneControllers)
              && forall i :: 0 <= i < |v| ==> PBoneController(buf, h, i).Success? && v[i] == BoneControllerAt(buf, PBoneController(buf, h, i).value)
  {
    var f := BoneControllerEntries(buf, h);
    var n := Count(h.numBoneControllers);
    CollectSucceeds(n, f);
    assert forall i :: 0 <= i < n ==> f(i) == BoneControllerEntry(buf, h, i);
    if BoneControllers(buf, h).Success? {
      var v := BoneControllers(buf, h).value;
      forall i | 0 <= i < |v|
        ensures PBoneController(buf, h, i).Success? && v[i] == BoneControllerAt(buf, PBoneController(buf, h, i).value)
      {
        assert v[i] == f(i).value;
      }
    }
  }

  /** The body part list has one entry per body part record. None is kept for a count below 1, and any failing entry fails the list. */
  lemma {:induction false} BodyPartsContents(buf: seq<Byte>, h: Header)
    ensures BodyParts(buf, h).Success? <==> forall i :: 0 <= i < Count(h.numBodyParts) ==> BodyPartEntry(buf, h, i).Success?
    ensures BodyParts(buf, h).Success? ==>
              var v := BodyParts(buf, h).value;
              |v| == Count(h.numBodyParts)
              && forall i :: 0 <= i < |v| ==> PBodyPart(buf, h, i).Success? && Success(v[i]) == BodyPartsAt(buf, PBodyPart(buf, h, i).value)
  {
    var f := BodyPartEntries(buf, h);
    var n := Count(h.numBodyParts);
    CollectSucceeds(n, f);
    assert forall i :: 0 <= i < n ==> f(i) == BodyPartEntry(buf, h, i);
    if BodyParts(buf, h).Success? {
      var v := BodyParts(buf, h).value;
      forall i | 0 <= i < |v|
        ensures PBodyPart(buf, h, i).Success? && Success(v[i]) == BodyPartsAt(buf, PBodyPart(buf, h, i).value)
      {
        assert v[i] == f(i).value;
      }
    }
  }

  /** The hitbox set list has one entry per hitbox set record. None is kept for a count below 1, and any failing entry fails the list. */
  lemma {:induction false} HitBoxSetsContents(buf: seq<Byte>, h: Header)
    ensures HitBoxSets(buf, h).Success? <==> forall i :: 0 <= i < Count(h.numHitboxSets) ==> HitBoxSetEntry(buf, h, i).Success?
    ensures HitBoxSets(buf, h).Success? ==>
              var v := HitBoxSets(buf, h).value;
              |v| == Count(h.numHitboxSets)
              && forall i :: 0 <= i < |v| ==> PHitboxSet(buf, h, i).Success? && Success(v[i]) == HitBoxSetAt(buf, PHitboxSet(buf, h, i).value)
  {
    var f := HitBoxSetEntries(buf, h);
    var n := Count(h.numHitboxSets);
    CollectSucceeds(n, f);
    assert forall i :: 0 <= i < n ==> f(i) == HitBoxSetEntry(buf, h, i);
    if HitBoxSets(buf, h).Success? {
      var v := HitBoxSets(buf, h).value;
      forall i | 0 <= i < |v|
        ensures PHitboxSet(buf, h, i).Success? && Success(v[i]) == HitBoxSetAt(buf, PHitboxSet(buf, h, i).value)
      {
        assert v[i] == f(i).value;
      }
    }
  }

  // ---- the whole file ----

  /** Everything `CacheModelInfo` extracts from one buffer. */
  datatype Decoded = Decoded(
    header: Header,
    name: string,
    textures: seq<string>,
    bones: seq<ModelBone>,
    boneControllers: seq<BoneController>,
    bodyParts: seq<ModelBodyParts>,
    hitBoxSets: seq<HitBoxSet>)

  /**
   * The single pass of `CacheModelInfo`: name, textures, bones, bone
   * controllers, body parts, hitbox sets. Any failure fails the whole decode.
   */
  function DecodeModel(raw: seq<Byte>): (r: Result<Decoded>)
    ensures |raw| < STUDIOHDR_SIZE ==> r == Failure(Truncated)
    ensures r.Success? ==>
              && |raw| >= STUDIOHDR_SIZE && r.value.header == ReadHeader(raw).value
              && |r.value.textures| == Count(r.value.header.numTextures)
              && |r.value.bones| == Count(r.value.header.numBones)
              && |r.value.boneControllers| == Count(r.value.header.numBoneControllers)
              && |r.value.bodyParts| == Count(r.value.header.numBodyParts)
              && |r.value.hitBoxSets| == Count(r.value.header.numHitboxSets)
  {
    var h :- ReadHeader(raw);
    var name :- ModelName(raw);
    var textures :- Textures(raw, h);
    var bones :- Bones(raw, h);
    var controllers :- BoneControllers(raw, h);
    var parts :- BodyParts(raw, h);
    var sets :- HitBoxSets(raw, h);
    Success(Decoded(h, name, textures, bones, controllers, parts, sets))
  }

  /**
   * What a successful decode holds: the header of the first 408 bytes, the
   * lower-cased name, and for each header array exactly `count` entries (none
   * for a count below 1), entry `i` being the record at `index + i * size`.
   */
  lemma {:induction false} DecodeModelContents(raw: seq<Byte>)
    requires DecodeModel(raw).Success?
    ensures |raw| >= STUDIOHDR_SIZE
    ensures var d := DecodeModel(raw).value;
            var h := d.header;
            h == ReadHeader(raw).value && d.name == ModelName(raw).value
            && |d.textures| == Count(h.numTextures)
            && (forall i :: 0 <= i < |d.textures| ==>
                  PTexture(raw, h, i).Success? && Success(d.textures[i]) == PszName(raw, PTexture(raw, h, i).value))
            && |d.bones| == Count(h.numBones)
            && (forall i :: 0 <= i < |d.bones| ==>
                  PBone(raw, h, i).Success? && Success(d.bones[i]) == BoneAt(raw, PBone(raw, h, i).value))
            && |d.boneControllers| == Count(h.numBoneControllers)
            && (forall i :: 0 <= i < |d.boneControllers| ==>
                  PBoneController(raw, h, i).Success?
                  && d.boneControllers[i] == BoneControllerAt(raw, PBoneController(raw, h, i).value))
            && |d.bodyParts| == Count(h.numBodyParts)
            && (forall i :: 0 <= i < |d.bodyParts| ==>
                  PBodyPart(raw, h, i).Success? && Success(d.bodyParts[i]) == BodyPartsAt(raw, PBodyPart(raw, h, i).value))
            && |d.hitBoxSets| == Count(h.numHitboxSets)
            && (forall i :: 0 <= i < |d.hitBoxSets| ==>
                  PHitboxSet(raw, h, i).Success? && Success(d.hitBoxSets[i]) == HitBoxSetAt(raw, PHitboxSet(raw, h, i).value))
  {
    var h := ReadHeader(raw).value;
    TexturesContents(raw, h);
    BonesContents(raw, h);
    BoneControllersContents(raw, h);
    BodyPartsContents(raw, h);
    HitBoxSetsContents(raw, h);
  }

  /**
   * A decode fails exactly when one of its steps does: a short header, an
   * unterminated name, or any entry of any header array.
   */
  lemma {:induction false} DecodeModelSucceeds(raw: seq<Byte>)
    ensures DecodeModel(raw).Success? <==>
              |raw| >= STUDIOHDR_SIZE && HeaderName(raw).Success?
              && var h := ReadHeader(raw).value;
                 (forall i :: 0 <= i < Count(h.numTextures) ==> TextureEntry(raw, h, i).Success?)
                 && (forall i :: 0 <= i < Count(h.numBones) ==> BoneEntry(raw, h, i).Success?)
                 && (forall i :: 0 <= i < Count(h.numBoneControllers) ==> BoneControllerEntry(raw, h, i).Success?)
                 && (forall i :: 0 <= i < Count(h.numBodyParts) ==> BodyPartEntry(raw, h, i).Success?)
                 && (forall i :: 0 <= i < Count(h.numHitboxSets) ==> HitBoxSetEntry(raw, h, i).Success?)
  {
    if |raw| >= STUDIOHDR_SIZE {
      var h := ReadHeader(raw).value;
      ModelNameLowered(raw);
      TexturesContents(raw, h);
      BonesContents(raw, h);
      BoneControllersContents(raw, h);
      BodyPartsContents(raw, h);
      HitBoxSetsContents(raw, h);
    }
  }
}

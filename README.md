# MDL studio model decoder

This project models the part of the MDL decoder that turns the bytes of a
Valve studio model (`.mdl`) file into an owned object graph, and proves what
that graph holds. The graph is:

- the lower-cased model name, the version, the mass and the hull extents;
- the texture (material) names;
- the bones, keyed by their position in the bone array;
- the bone controllers;
- body parts, each holding studio models, each holding eyeballs;
- hitbox sets, each holding bounding boxes.

Every record is found through the accessors of `studiohdr_t` and its child
structures:
- A header-level array element sits at `header + index + i * size`.
- A nested array element, and every name string, sits at an offset measured
  from the address of the record that holds it.

The C++ checks no bounds at all. The model checks three things:
- Every record address goes through one resolver, `Studio.Resolve`. It
  succeeds only when the whole record, all of its `sizeof` bytes, lies in
  the buffer.
- The header is read only when all 408 of its bytes are present.
- Every name is read byte by byte by `Bytes.CString`. It fails when the
  string starts outside the buffer, or when it reaches the end without a NUL.

So the model fails (`OutOfBounds`, `Truncated` or `Unterminated`) wherever
the C++ would read outside the buffer. It also fails for some files that the
C++ reads entirely in bounds: files whose last record, or whose header, is
cut short after the last field the decoder reads. On success, every decoded
value is exactly what the C++ reads.

Files:

- `wrappers.dfy`: `Option`, `Result` and the error kinds.
- `bytes.dfy`: the byte buffer, little-endian 32-bit reads and their
  encodings, and NUL-terminated C strings.
- `studio.dfy`: the record sizes and field offsets of the 32-bit on-disk
  layout, the header, and the self-relative accessors of
  `include/valve/studio.h` (`pBone`, `pHitbox`, `pszName`, `clamp`, …).
- `entities.dfy`: the value types `CBBox`, `CHitBoxSet`, `CStudioEyeBall`,
  `CStudioModel`, `CModelBodyParts`, `CBoneController` and `CModelBone`.
- `decoder.dfy`: what each `Cache` method reads.
  - `Collect` specifies a counted `for` loop: elements 0 .. n-1 in order, and
    the first failing element decides the outcome.
  - `CollectLoop` and `CollectMapLoop` are that loop, proved against `Collect`.
  - `CacheStudioModel`, `CacheBodyParts` and `CacheHitBoxSet` are the `Cache`
    methods that contain loops, proved equal to their specification functions.
  - `DecodeModel` is the whole pass of `CacheModelInfo`.
- `mdlobj.dfy`: `CModel` as the class `MdlObj.Model`. Its fields are the
  C++ members.
  - `LoadFile` and `CacheModelInfo` assign those fields step by step.
  - The accessors are functions that read them.

The model follows the code where the code and the format's usual
description differ:

- The magic number (`IDST`) is never checked. Any buffer of at least 408
  bytes has a header.
- The version is stored without validation.
- The `pszName` accessors of bones, textures, hitbox sets, body parts and
  eyeballs have no special case for a name offset of 0. Such an offset names
  the record's own bytes.
- Only `pszHitboxName` (and the out-of-scope activity modifier and
  `studiohdr2_t` names) read offset 0 as "no name".
- The model name is copied through a `char*`. A name with no NUL inside its
  64-byte field runs on into the fields that follow.

## Model

| member | source | states |
|---|---|---|
| Bytes.ReadI32Wraps | include/valve/studio.h:717-718 | an `int` field read as signed agrees with its unsigned reading modulo 2^32, and is non-negative exactly when the unsigned reading is below 2^31 |
| Bytes.ReadI32 | include/valve/studio.h:717-718 | an `int` field is the four bytes at its offset read as a two's-complement value, always within the range of a C++ `int` |
| Bytes.ReadEncodeU32 | include/valve/studio.h:849 | a 32-bit word (a float copied bit for bit) written anywhere in a buffer reads back unchanged |
| Bytes.EncodeReadU32 | include/valve/studio.h:849 | reading a word and writing it again gives back the four bytes it came from |
| Bytes.ReadEncodeI32 | include/valve/studio.h:717-718 | an `int` written anywhere in a buffer reads back unchanged |
| Bytes.EncodeReadI32 | include/valve/studio.h:717-718 | reading an `int` and writing it again gives back its four bytes |
| Bytes.CStringSpec | include/valve/studio.h:129 | a `char*` name is read exactly when its start lies in the buffer and a NUL follows it; it is then the bytes before the first NUL, none of them NUL |
| Bytes.CString | include/valve/studio.h:129 | a name read through `char*` fails as out of bounds when it starts outside the buffer and as unterminated when it runs off the end; a string that is read ends before the buffer does |
| Bytes.CStringOfWritten | include/valve/studio.h:129 | a string written with its NUL is read back exactly, without the NUL |
| Bytes.CStringOfName | include/valve/studio.h:129 | a name of non-NUL characters written with its NUL is read back as that name |
| Bytes.TerminatedBuffer | src/mdlobj.cpp:69-70 | with the one NUL the loader appends, every string that starts inside the file terminates |
| Studio.ReadVectorEncodes | src/mdlobj.cpp:325-332 | `Vector3D = Vector` copies x, y and z: writing the three words back gives the 12 bytes they were read from |
| Studio.ReadHeader | include/valve/studio.h:694-928 | a header exists exactly when the buffer holds 408 bytes; otherwise the decode fails as truncated; neither the magic number nor the version is checked |
| Studio.EncodeHeader | include/valve/studio.h:694-851 | the 408-byte `studiohdr_t` holding a header, its fields in struct order |
| Studio.HeaderRecordFields | include/valve/studio.h:694-851 | version, hull extents, the bone, controller, hitbox set, animation, sequence, texture and body part count/index pairs and the mass sit at offsets 4, 104, 116, 156-192, 204-208, 232-236 and 328 |
| Studio.HeaderAtOf | include/valve/studio.h:694-851 | a buffer that starts with an encoded header reads back that header |
| Studio.HeaderRoundTrip | include/valve/studio.h:694-851 | every field is read from its own `studiohdr_t` offset: the header written for any header, followed by anything, reads back as that header |
| Studio.HeaderReadsOnlyHeader | include/valve/studio.h:694-928 | the header is a function of the first 408 bytes alone |
| Studio.HeaderName | include/valve/studio.h:701 | the header name is read exactly when a NUL follows offset 12; it is then the bytes up to the first NUL, none of them NUL |
| Studio.HeaderNameFits | include/valve/studio.h:701 | the copied name is shorter than its 64-byte field exactly when the field holds a NUL |
| Studio.Resolve | include/valve/studio.h:719 | an address is `base + offset` when `size` bytes fit there, and out of bounds otherwise |
| Studio.HeaderArray | include/valve/studio.h:719 | element `i` of a header array is at `index + i * size` from the header start, and exists when the record fits |
| Studio.PBone | include/valve/studio.h:719 | bone `i` (0 <= i < numbones, the assert) is at `boneindex + i * 216`, failing exactly when that record leaves the buffer |
| Studio.PBoneController | include/valve/studio.h:723 | controller `i` (0 <= i < numbonecontrollers) is at `bonecontrollerindex + i * 56`, failing exactly when the record leaves the buffer |
| Studio.PHitboxSet | include/valve/studio.h:729-733 | hitbox set `i` (0 <= i < numhitboxsets) is at `hitboxsetindex + i * 12`, failing exactly when the record leaves the buffer |
| Studio.PTexture | include/valve/studio.h:778 | texture `i` (0 <= i < numtextures) is at `textureindex + i * 64`, failing exactly when the record leaves the buffer |
| Studio.PBodyPart | include/valve/studio.h:794 | body part `i`, with no requirement on `i`, is at `bodypartindex + i * 16`, failing exactly when the record leaves the buffer |
| Studio.NestedArray | include/valve/studio.h:132 | a nested element is at the holding record's address plus its index field plus `i * size` |
| Studio.PHitbox | include/valve/studio.h:132 | bbox `i` of a set is measured from the hitbox set record: `set + hitboxindex + i * 68`, failing exactly when that record leaves the buffer |
| Studio.PModel | include/valve/studio.h:398 | studio model `i` of a body part is measured from the body part record: `part + modelindex + i * 148`, failing exactly when that record leaves the buffer |
| Studio.PEyeball | include/valve/studio.h:384 | eyeball `i` of a studio model is measured from the model record: `model + eyeballindex + i * 172`, failing exactly when that record leaves the buffer |
| Studio.NestedArrayIsSelfRelative | include/valve/studio.h:132 | moving a record together with what it points to moves its children by the same distance: nested addresses never depend on the buffer start |
| Studio.PszName | include/valve/studio.h:129 | `pszName` is the C string at the record's address plus `sznameindex`, and an offset of 0 names the record's own bytes |
| Studio.PszHitboxName | include/valve/studio.h:111-117 | a bbox name offset of 0 gives the empty name without reading; any other offset gives the C string at the bbox address plus that offset |
| Studio.OptionalName | include/valve/studio.h:445 | the activity-modifier and `studiohdr2_t` names are absent exactly when their offset is 0, and otherwise the C string at the record plus that offset, failing with that string's error when it fails |
| Studio.StudioModelNameFits | include/valve/studio.h:356-357 | a studio model's name is its inline 64-byte field, shorter than the field exactly when the field holds a NUL |
| Studio.StudioModelName | include/valve/studio.h:356-357 | a studio model's name is read exactly when a NUL follows the record start; it is then the bytes up to the first NUL |
| Studio.Clamp | include/valve/studio.h:50-60 | `clamp` gives `maxVal` when `maxVal < minVal`; otherwise a result in [minVal, maxVal], equal to `val` when `val` is in range and to the bound it crossed otherwise |
| Studio.ClampIdempotent | include/valve/studio.h:50-60 | clamping a clamped value changes nothing |
| Studio.LocalIndex | include/valve/studio.h:766 | an index outside [0, count) becomes 0, an index inside it is kept |
| Studio.PLocalSeqdesc | include/valve/studio.h:766 | sequence `i` is at `localseqindex + i * 212`, and an out-of-range `i` reads sequence 0; it fails exactly when that record leaves the buffer |
| Studio.PLocalAnimdesc | include/valve/studio.h:762 | animation `i` is at `localanimindex + i * 100`, and an out-of-range `i` reads animation 0; it fails exactly when that record leaves the buffer |
| Studio.PHitboxOfSet | include/valve/studio.h:736-743 | when set `set` is in the buffer, bbox `i` of it is that set's `pHitbox(i)`; when it is not, the lookup fails with the set's error |
| Studio.HitboxCount | include/valve/studio.h:746-753 | `iHitboxCount(set)` is read exactly when set `set` is in the buffer, and is that set's `numhitboxes` |
| Decoder.CollectSucceeds | src/mdlobj.cpp:163-174 | a counted loop succeeds exactly when every element does; it then holds all `n` elements, element `i` in position `i` |
| Decoder.Collect | src/mdlobj.cpp:163-174 | a counted loop over `n` elements that succeeds holds exactly `n` of them |
| Decoder.CollectStopsAt | src/mdlobj.cpp:163-174 | a loop whose first failing element is `i` reports that element's error |
| Decoder.CollectLoop | src/mdlobj.cpp:127-138 | the loop `for (int i = 0; i < n; i++)` that pushes each decoded element produces exactly `Collect(Count(n), f)`; it runs zero times for `n <= 0` |
| Decoder.CollectMapLoop | src/mdlobj.cpp:111-122 | the same loop inserting element `i` under key `i` also produces the map whose keys are exactly 0 .. n-1, key `i` holding element `i` |
| Decoder.IndexMap | src/mdlobj.cpp:121 | the bone map has exactly the keys 0 .. |s|-1, key `k` holding `s[k]` |
| Decoder.LowerChar | src/mdlobj.cpp:10-14 | `tolower` on one byte in the "C" locale: `A`-`Z` move up by 32, every other byte is unchanged, and no upper-case letter remains |
| Decoder.LowerAscii | src/mdlobj.cpp:10-14 | lower-casing keeps the length and lowers each character on its own |
| Decoder.LowerAsciiIdempotent | src/mdlobj.cpp:10-14 | lower-casing twice is lower-casing once |
| Decoder.ToLower | src/mdlobj.cpp:10-14 | the in-place loop leaves every character lowered and the length unchanged |
| Decoder.ModelNameLowered | src/mdlobj.cpp:86-88 | the display name exists exactly when the header name does, has its length, and is its bytes with `A`-`Z` lowered |
| Decoder.ModelName | src/mdlobj.cpp:86-88 | the display name exists exactly when the header name does, is as long, and holds no upper-case letter |
| Decoder.BoneAt | src/mdlobj.cpp:242-257 | a bone decodes exactly when its name does |
| Decoder.EncodeBone | include/valve/studio.h:621-653 | the 216-byte bone record holding a bone, with its name placed after the record |
| Decoder.BoneRecordFields | include/valve/studio.h:621-653 | the name offset, parent, position, flags and contents of a bone record sit at offsets 0, 4, 32, 160 and 180 |
| Decoder.BoneAtOf | src/mdlobj.cpp:242-257 | a bone record with its name laid out after it decodes to that bone |
| Decoder.BoneRoundTrip | src/mdlobj.cpp:242-257 | a bone is copied field for field, its parent unchecked (-1 for a root bone included), and its name is found through its self-relative offset: the record written for any bone, anywhere in a buffer, decodes to that bone |
| Decoder.BBoxAt | src/mdlobj.cpp:314-323 | a bbox decodes exactly when its name does, and a name offset of 0 always decodes, to "" |
| Decoder.BBoxRecord | include/valve/studio.h:102-124 | the 68-byte bbox record holding a bbox and a name offset |
| Decoder.BBoxRecordFields | include/valve/studio.h:102-124 | the bone, group, bbmin, bbmax and name offset of a bbox record sit at offsets 0, 4, 8, 20 and 32 |
| Decoder.EncodeBBox | include/valve/studio.h:102-124 | a bbox as stored: the record alone with name offset 0 when it has no name, otherwise the record followed by its name |
| Decoder.BBoxAtOf | src/mdlobj.cpp:314-323 | a bbox record laid out as `EncodeBBox` does decodes to that bbox |
| Decoder.BBoxRoundTrip | src/mdlobj.cpp:314-323 | a bbox is copied field for field, and its name is empty exactly when it is stored with name offset 0: the record written for any bbox, anywhere in a buffer, decodes to that bbox |
| Decoder.EyeBallAt | src/mdlobj.cpp:177-204 | an eyeball decodes exactly when its name does |
| Decoder.EyeBallRecord | include/valve/studio.h:320-352 | the 172-byte eyeball record holding an eyeball and a name offset |
| Decoder.EyeBallRecordFields | include/valve/studio.h:320-352 | the name offset, bone, org, zoffset, radius, up, forward and texture of an eyeball record sit at offsets 0, 4, 8, 20, 24, 28, 40 and 52 |
| Decoder.EncodeEyeBall | include/valve/studio.h:320-352 | an eyeball record followed by its name |
| Decoder.EyeBallAtOf | src/mdlobj.cpp:177-204 | an eyeball record with its name laid out after it decodes to that eyeball |
| Decoder.EyeBallRoundTrip | src/mdlobj.cpp:177-204 | an eyeball is copied field for field, its name found through its self-relative offset: the record written for any eyeball, anywhere in a buffer, decodes to that eyeball |
| Decoder.BoneControllerAt | src/mdlobj.cpp:282-291 | every `int` field of a decoded controller lies in the range of a C++ `int`, as a four-byte read gives |
| Decoder.EncodeBoneController | include/valve/studio.h:91-100 | the 56-byte controller record holding a controller |
| Decoder.BoneControllerRoundTrip | src/mdlobj.cpp:282-291 | a controller is copied field for field with no check of its bone index: the record written for any controller, anywhere in a buffer, decodes to that controller |
| Decoder.BoneControllerRecordRoundTrip | src/mdlobj.cpp:282-291 | decoding a controller record and writing it back reproduces its six fields' 24 bytes |
| Decoder.StudioModelAt | src/mdlobj.cpp:206-240 | a studio model whose name fails fails with the name's error; a decoded model keeps `numeyeballs` and holds that many eyeballs, none for a count below 1 |
| Decoder.StudioModelAtContents | src/mdlobj.cpp:206-240 | a studio model decodes exactly when its name and each of its `numeyeballs` eyeballs do; it then holds its type, bounding radius, mesh, vertex, tangent, attachment and eyeball fields as stored, and those eyeballs in order, each read at the address its own eyeball index gives |
| Decoder.EncodeStudioModel | include/valve/studio.h:354-389 | the 148-byte studio model record holding a model: the name padded with NULs to 64 bytes, then type, bounding radius and the mesh, vertex, tangent, attachment and eyeball fields in struct order |
| Decoder.StudioModelRecordFields | include/valve/studio.h:354-389 | the inline name and its NUL start at offset 0, and type, bounding radius, nummeshes, meshindex, numvertices, vertexindex, tangentsindex, numattachments, attachmentindex, numeyeballs and eyeballindex sit at offsets 64, 68, 72, 76, 80, 84, 88, 92, 96, 100 and 104 |
| Decoder.StudioModelAtOf | src/mdlobj.cpp:206-240 | a buffer holding an encoded studio model decodes to that model once each of its eyeballs decodes to the eyeball it holds |
| Decoder.StudioModelRoundTrip | src/mdlobj.cpp:206-240 | a studio model's inline name and scalar fields are copied from its record and its eyeballs are resolved through its own eyeball index: the record written for any model, anywhere in a buffer, decodes to that model once its eyeballs decode to its eyeballs |
| Decoder.CacheStudioModel | src/mdlobj.cpp:206-240 | `CStudioModel::Cache` produces exactly `StudioModelAt` |
| Decoder.BodyPartsAt | src/mdlobj.cpp:259-280 | a body part whose name fails fails with the name's error; a decoded body part keeps `nummodels` and holds that many models, none for a count below 1 |
| Decoder.BodyPartsAtContents | src/mdlobj.cpp:259-280 | a body part decodes exactly when its name and each of its `nummodels` models do; it then keeps its fields and holds those models in order, each resolved from the body part record |
| Decoder.BodyPartRecordFields | include/valve/studio.h:391-399 | the name offset, nummodels, base and modelindex of a body part record sit at offsets 0, 4, 8 and 12 |
| Decoder.EncodeBodyPart | include/valve/studio.h:391-399 | the 16-byte body part record holding a body part, with its name placed after the record |
| Decoder.BodyPartAtOf | src/mdlobj.cpp:259-280 | a body part record with its name laid out after it decodes to that body part once each of its models decodes to the model it holds |
| Decoder.BodyPartRoundTrip | src/mdlobj.cpp:259-280 | a body part's name and fields are copied from its record and its models are resolved through its own model index: the record written for any body part, anywhere in a buffer, decodes to that body part once its models decode to its models |
| Decoder.CacheBodyParts | src/mdlobj.cpp:259-280 | `CModelBodyParts::Cache` produces exactly `BodyPartsAt` |
| Decoder.HitBoxSetAt | src/mdlobj.cpp:293-312 | a hitbox set whose name fails fails with the name's error; a decoded set keeps `numhitboxes` and holds that many boxes, none for a count below 1 |
| Decoder.HitBoxSetAtContents | src/mdlobj.cpp:293-312 | a hitbox set decodes exactly when its name and each of its `numhitboxes` boxes do; it then echoes the set's count and index and holds those boxes in order, each resolved from the set record |
| Decoder.HitBoxSetRecordFields | include/valve/studio.h:126-133 | the name offset, numhitboxes and hitboxindex of a hitbox set record sit at offsets 0, 4 and 8 |
| Decoder.EncodeHitBoxSet | include/valve/studio.h:126-133 | the 12-byte hitbox set record holding a set, with its name placed after the record |
| Decoder.HitBoxSetAtOf | src/mdlobj.cpp:293-312 | a hitbox set record with its name laid out after it decodes to that set once each of its boxes decodes to the box it holds |
| Decoder.HitBoxSetRoundTrip | src/mdlobj.cpp:293-312 | a hitbox set's name, count and box index are copied from its record and its boxes are resolved through its own box index: the record written for any set, anywhere in a buffer, decodes to that set once its boxes decode to its boxes |
| Decoder.CacheHitBoxSet | src/mdlobj.cpp:293-312 | `CHitBoxSet::Cache` produces exactly `HitBoxSetAt` |
| Decoder.Textures | src/mdlobj.cpp:92-102 | a material list that decodes has `numtextures` entries, none for a count below 1 |
| Decoder.Bones | src/mdlobj.cpp:108-122 | a bone list that decodes has `numbones` entries, none for a count below 1 |
| Decoder.BoneControllers | src/mdlobj.cpp:124-138 | a controller list that decodes has `numbonecontrollers` entries, none for a count below 1 |
| Decoder.BodyParts | src/mdlobj.cpp:140-154 | a body part list that decodes has `numbodyparts` entries, none for a count below 1 |
| Decoder.HitBoxSets | src/mdlobj.cpp:159-174 | a hitbox set list that decodes has `numhitboxsets` entries, none for a count below 1 |
| Decoder.TexturesContents | src/mdlobj.cpp:92-102 | the material list has `numtextures` entries when that is at least 1 and none otherwise; entry `i` is the name string of texture record `i`, case preserved |
| Decoder.BonesContents | src/mdlobj.cpp:108-122 | the bone list has `numbones` entries (none for a count below 1); entry `i` is the bone record at `boneindex + i * 216` |
| Decoder.BoneControllersContents | src/mdlobj.cpp:124-138 | the controller list has `numbonecontrollers` entries in order, entry `i` copied from controller record `i` |
| Decoder.BodyPartsContents | src/mdlobj.cpp:140-154 | the body part list has `numbodyparts` entries in order, entry `i` decoded from body part record `i` |
| Decoder.HitBoxSetsContents | src/mdlobj.cpp:159-174 | the hitbox set list has `numhitboxsets` entries in order, entry `i` decoded from hitbox set record `i` |
| Decoder.DecodeModel | src/mdlobj.cpp:84-175 | a buffer shorter than the header fails as truncated; a decode holds the header read from the buffer and, for each header array, exactly as many entries as its count (none below 1) |
| Decoder.DecodeModelContents | src/mdlobj.cpp:84-175 | a successful decode holds the header of the first 408 bytes, the lowered name, and for every header array exactly `count` entries, entry `i` being the record at `index + i * size` |
| Decoder.DecodeModelSucceeds | src/mdlobj.cpp:84-175 | a decode succeeds exactly when the header fits, the name terminates and every entry of every header array decodes; the version plays no part |
| MdlObj.Model.constructor | src/mdlobj.cpp:17-25 | an empty filename leaves the model unloaded; otherwise the model is loaded from the file's bytes plus one NUL when they decode, and unloaded when not; every count matches its list |
| MdlObj.Model.SetDefaults | include/mdlobj.h:163-185 | every member is at its in-class initialiser: empty containers, version -1, counts and mass 0 |
| MdlObj.Model.ClearLists | include/mdlobj.h:163-171 | the bone map, lists, raw data and name are empty |
| MdlObj.Model.ClearScalars | include/mdlobj.h:173-185 | the hull vectors and mass are zero, the version is -1 and every count is 0 |
| MdlObj.Model.LoadFile | src/mdlobj.cpp:69-81 | the raw data becomes the file's bytes followed by exactly one 0 byte, and the load succeeds exactly when that buffer decodes, leaving the fields holding the decode |
| MdlObj.Model.CacheModelInfo | src/mdlobj.cpp:84-175 | caching succeeds exactly when `DecodeModel` does, and the fields then hold that decode |
| MdlObj.Model.CacheSections | src/mdlobj.cpp:90-175 | after the name: version, materials, material count, mass, hull, bones, controllers, body parts, sequence count and hitbox sets, each from its header field or array |
| MdlObj.Model.CacheArrays | src/mdlobj.cpp:108-174 | the bone map, controllers, body parts and hitbox sets hold their decoded lists, and each count field holds its header count |
| MdlObj.Model.CacheName | src/mdlobj.cpp:86-88 | the name is cached exactly when the header name terminates, and is then the lowered name |
| MdlObj.Model.CacheHull | src/mdlobj.cpp:103-106 | mass and hull extents are the header's |
| MdlObj.Model.CacheTextures | src/mdlobj.cpp:92-102 | the material list is the decoded texture list, and the material count is `numtextures` as read, even when negative |
| MdlObj.Model.CacheBones | src/mdlobj.cpp:108-122 | the bone count is `numbones` and the bone map holds bone `i` under key `i` |
| MdlObj.Model.CacheBoneControllers | src/mdlobj.cpp:124-138 | the controller count is `numbonecontrollers` and the list holds the decoded controllers |
| MdlObj.Model.CacheBodyPartsList | src/mdlobj.cpp:140-154 | the body part count is `numbodyparts` and the list holds the decoded body parts |
| MdlObj.Model.CacheHitBoxSets | src/mdlobj.cpp:159-174 | the hitbox set count is `numhitboxsets` and the list holds the decoded sets |
| MdlObj.Model.Bone | src/mdlobj.cpp:27-39 | `Bone(i)` is the bone stored under key `i`, and none exactly when the key is absent |
| MdlObj.Model.Texture | src/mdlobj.cpp:41-53 | `Texture(i)` is entry `i`, and none exactly when `i < 0` or `i` is past the end |
| MdlObj.LoadedLookups | src/mdlobj.cpp:27-53 | after a load, `Bone(i)` finds exactly 0 .. numbones-1 and `Texture(i)` exactly 0 .. numtextures-1, each the entity decoded from record `i` |
| MdlObj.LoadedIsValid | include/mdlobj.h:193-201 | after a load, every list is as long as the count beside it: `MaterialCount()` is `GetMaterials().size()` whenever it is not negative, and likewise for bones, controllers, body parts, models, eyeballs and hitboxes |

## Left out

- File I/O: `ifstream`, `rdbuf` and `is_open` (src/mdlobj.cpp:57-67). The file's contents are a parameter, `None` when the file cannot be opened.
- Floating point: float fields are opaque 32-bit words, copied bit for bit and never interpreted. So the vertex-animation conversions, `SetWrinkleFixed` and the `MaxEyeDeflection` default are not modelled.
- Sequences, animations, flexes, meshes, vertices, nodes, key-values and `studiohdr2_t` are never traversed. Only `numlocalseq` is stored; `pLocalSeqdesc` and `pLocalAnimdesc` are modelled as addresses.
- The layout is the 32-bit on-disk one: pointer fields are 4 bytes. A 64-bit build would lay out `mstudiotexture_t` and `mstudiomodel_t` differently, and that is not reproduced.
- `ICacheable` virtual dispatch is replaced by one function per entity kind.
- `reserve` capacity hints have no observable effect and are not modelled.
- The `if (!ptr) break;` guards test addresses that are never null, so they are not modelled.
- `include/valve/vector.h` holds float data only; `Vector` is a triple of words. `compressed_vector.h` and `vector4d.h` are not part of this model.
- Out-of-bounds reads are undefined behaviour in the C++. The model fails instead.
- Decoder.LowerChar: models `tolower` in the "C" locale only. Other locales may change more bytes, and the locale is global state the model does not have.
- MdlObj.Model.LoadFile: returns false, and resets the model to its defaults, whenever the decode fails. The C++ returns true for every file it opens. That covers files it reads out of bounds, where its behaviour is undefined. It also covers the in-bounds files that the whole-record check rejects (next line), which the C++ loads successfully.
- Bounds: a record is accepted only when all of its `sizeof` bytes lie in the buffer, and the header only when all 408 of its bytes do. The C++ touches only the fields it reads, so a file cut short after the last field read from its final record or from its header loads there and fails here.
- MdlObj.Model.CacheModelInfo: each list field is assigned once its loop has finished. The C++ pushes onto the member directly. Its `CacheModelInfo` returns nothing and its `LoadFile` returns true, so a load there never reports a failure. A partial list arises there only when an out-of-bounds read happens not to crash. The model resets after any failure, so it holds no partial list.
- MdlObj.Model.CacheModelInfo: the C++ is one function; the model splits it into `CacheName`, `CacheSections`, `CacheArrays` and one method per loop, in the same order.
- The nested loops evaluate the element functions rather than calling the `Cache` methods. The header-level loops use `BodyPartEntry` and `HitBoxSetEntry` instead of `CacheBodyParts` and `CacheHitBoxSet`. `CacheBodyParts` uses `ModelEntries`, and so `StudioModelAt`, where `CModelBodyParts::Cache` calls `CStudioModel::Cache` (`CacheStudioModel`). Each of those methods is proved equal to its function.
- The getters `GetMaterials`, `GetBoneControllers`, `GetBodyParts`, `GetHitBoxSets`, `GetRawData`, `Name`, `HullMins`, `HullMaxs`, `MaterialCount` and `Mass` are functions that read one field. Being functions, they change nothing; they carry no contract of their own.
- 32-bit arithmetic on addresses (`index + i * size`) is exact here. The C++ pointer arithmetic would wrap, or be undefined, far outside any buffer that the resolver accepts.

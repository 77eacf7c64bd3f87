/**
 * The decoded entities. Each is an owned value: names are copied-out
 * strings, children are sequences, and nothing refers back into the buffer.
 */
module Entities {
  import opened Bytes
  import opened Studio

  /**
   * `Vector3D`: assigning from a `Vector` copies x, y and z, so a decoded
   * vector is the three words stored in the file.
   */
  type Vector3D = Vector

  const ZERO_VECTOR := Vector(0, 0, 0)

  /** `CBBox` */
  datatype BBox = BBox(
    name: string,
    bbMin: Vector3D,
    bbMax: Vector3D,
    bone: int,
    group: int)

  /** `CHitBoxSet` */
  datatype HitBoxSet = HitBoxSet(
    hitBoxes: seq<BBox>,
    name: string,
    hitBoxCount: int,
    hitBoxIndex: int)

  /** `CStudioEyeBall` */
  datatype StudioEyeBall = StudioEyeBall(
    origin: Vector3D,
    dirUp: Vector3D,
    dirForward: Vector3D,
    name: string,
    bone: int,
    texture: int,
    zOffset: Word,
    radius: Word)

  /** `CStudioModel`: the mesh, vertex, tangent and attachment fields are recorded, not followed. */
  datatype StudioModel = StudioModel(
    name: string,
    meshCount: int,
    meshIndex: int,
    modelType: int,
    vertexCount: int,
    vertexIndex: int,
    tangentsIndex: int,
    attachmentCount: int,
    attachmentIndex: int,
    eyeBallCount: int,
    eyeBallIndex: int,
    boundingRadius: Word,
    eyeBalls: seq<StudioEyeBall>)

  /** `CModelBodyParts` */
  datatype ModelBodyParts = ModelBodyParts(
    name: string,
    modelCount: int,
    base: int,
    modelIndex: int,
    studioModels: seq<StudioModel>)

  /** `CBoneController`: the bone index is kept as stored (-1 for none) and not checked. */
  datatype BoneController = BoneController(
    bone: int,
    controllerType: int,
    rest: int,
    inputField: int,
    start: Word,
    end: Word)

  /** `CModelBone`: parent -1 marks a root bone. */
  datatype ModelBone = ModelBone(
    name: string,
    parent: int,
    flags: int,
    contents: int,
    position: Vector3D)
}

/** Identity of scene objects and the connections they emit. */
module Scene {
  import opened Wrappers
  import opened Values

  /** The wire identifier, derived from `GetHashCode()`. */
  type ObjectId = Int32

  /** Identifies the owning scene, compared by reference in the source. */
  type SceneId = nat

  /** `FBXClassType`, restricted to the classes the core dispatches on. */
  datatype ClassTag = ModelClass | NodeAttributeClass | DeformerClass | GeometryClass
                    | PoseClass | MaterialClass | TextureClass | OtherClass

  /** `FBXObjectType`, restricted to the types the core mentions. */
  datatype TypeTag = NullType | MeshType | BlendShapeType | SkinType | BindPoseType
                   | MaterialType | TextureType | OtherType(code: nat)

  /** A live reference to a scene object: its identity and its tags. */
  datatype Obj = Obj(id: ObjectId, scene: SceneId, cls: ClassTag, typ: TypeTag)

  datatype ConnectionKind = ObjectLink | PropertyLink

  /** An edge from `source` to `target`, with a property name for property links. */
  datatype Connection = Connection(kind: ConnectionKind, source: ObjectId, target: ObjectId,
                                   property: Option<string>)
}

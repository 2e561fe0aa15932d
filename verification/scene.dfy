/** The slice of the host's data the rig operators look at: every object in the file. */
module Scene {
  import opened Vectors

  /** The host object's `type` tag; only the two tags the operators test are told apart. */
  datatype ObjectType = MeshType | ArmatureType | OtherType

  /** One entry of the file's object collection (`bpy.data.objects`), in its iteration order. */
  datatype SceneObject = SceneObject(name: string, kind: ObjectType, selected: bool)

  /** Name lookup into every object in the file: present keys are the objects that exist,
      and each maps to that object's `location`. */
  type Locations = map<string, Vec3>

  /** No name occurs twice; the host keeps object and bone names unique this way. */
  predicate DistinctNames(names: seq<string>)
  {
    forall i, j :: 0 <= i < j < |names| ==> names[i] != names[j]
  }
}

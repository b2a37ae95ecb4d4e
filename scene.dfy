/** What the object tables store in place of a Unity `GameObject`: the prefab
    it was instantiated from and its current pose. Object names are not modelled. */
module Scene {
  import opened Wire

  datatype SceneObject = SceneObject(prefabName: string, pose: Pose)
}

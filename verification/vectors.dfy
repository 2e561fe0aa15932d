/** Three-component vectors over the reals, standing for the host's float vectors. */
module Vectors {

  datatype Vec3 = Vec3(x: real, y: real, z: real)

  function Add(a: Vec3, b: Vec3): (r: Vec3)
  {
    Vec3(a.x + b.x, a.y + b.y, a.z + b.z)
  }

  function Sub(a: Vec3, b: Vec3): (r: Vec3)
  {
    Vec3(a.x - b.x, a.y - b.y, a.z - b.z)
  }

  /** Reflection through the plane x = 0 (the rig's left/right plane for guides). */
  function MirrorX(v: Vec3): (r: Vec3)
  {
    Vec3(-v.x, v.y, v.z)
  }

  /** Reflection through the plane y = 0 (the left/right plane of the human rig). */
  function MirrorY(v: Vec3): (r: Vec3)
  {
    Vec3(v.x, -v.y, v.z)
  }
}

/** The bind operator's choice of mesh and rig: one scan over every object in the file. */
module MeshBinding {
  import opened Options
  import opened Scene
  import opened RigGeneration

  datatype BindOutcome = BindCancelled | Bound(mesh: SceneObject, armature: SceneObject)

  /** An object the scan takes as the mesh to bind: a selected mesh. */
  predicate IsBindMesh(o: SceneObject)
  {
    o.kind == MeshType && o.selected
  }

  /** An object the scan takes as the rig: an armature carrying the generator's name. */
  predicate IsBindRig(o: SceneObject)
  {
    o.kind == ArmatureType && o.name == RigName
  }

  /** `objects[i]` matches and no later object does. */
  predicate LastMeshAt(objects: seq<SceneObject>, i: int)
  {
    0 <= i < |objects| && IsBindMesh(objects[i]) && forall k :: i < k < |objects| ==> !IsBindMesh(objects[k])
  }

  predicate LastRigAt(objects: seq<SceneObject>, i: int)
  {
    0 <= i < |objects| && IsBindRig(objects[i]) && forall k :: i < k < |objects| ==> !IsBindRig(objects[k])
  }

  /** The last selected mesh of the objects, read from the back. */
  function LastMesh(objects: seq<SceneObject>): (r: Option<SceneObject>)
    ensures r.Some? ==> IsBindMesh(r.value) && r.value in objects
  {
    if objects == [] then None
    else if IsBindMesh(objects[|objects| - 1]) then Some(objects[|objects| - 1])
    else LastMesh(objects[..|objects| - 1])
  }

  /** The last armature of the objects named like the rig, read from the back. */
  function LastRig(objects: seq<SceneObject>): (r: Option<SceneObject>)
    ensures r.Some? ==> IsBindRig(r.value) && r.value in objects
  {
    if objects == [] then None
    else if IsBindRig(objects[|objects| - 1]) then Some(objects[|objects| - 1])
    else LastRig(objects[..|objects| - 1])
  }

  /** The scan: each selected mesh replaces the mesh found so far, and otherwise each
      armature named like the rig replaces the rig found so far; the operator is cancelled
      unless both were found, and binds the last ones found otherwise. */
  method BindMesh(objects: seq<SceneObject>) returns (r: BindOutcome)
    ensures r.BindCancelled? <==> LastMesh(objects).None? || LastRig(objects).None?
    ensures r.Bound? ==> r.mesh == LastMesh(objects).value && r.armature == LastRig(objects).value
  {
    var mesh: Option<SceneObject> := None;
    var rig: Option<SceneObject> := None;
    var n := 0;
    while n < |objects|
      invariant 0 <= n <= |objects|
      invariant mesh == LastMesh(objects[..n])
      invariant rig == LastRig(objects[..n])
    {
      var o := objects[n];
      assert objects[..n + 1][..n] == objects[..n];
      if o.kind == MeshType && o.selected {
        mesh := Some(o);
      } else if o.kind == ArmatureType && o.name == RigName {
        rig := Some(o);
      }
      n := n + 1;
    }
    assert objects[..n] == objects;
    if !(mesh.Some? && rig.Some?) {
      r := BindCancelled;
    } else {
      r := Bound(mesh.value, rig.value);
    }
  }

  /** The last selected mesh, described without the backward read: there is none exactly
      when no object is a selected mesh, and it is the object at any position after which
      no selected mesh follows. */
  lemma {:induction false} LastMeshMeans(objects: seq<SceneObject>)
    ensures LastMesh(objects).None? <==> forall k :: 0 <= k < |objects| ==> !IsBindMesh(objects[k])
    ensures forall i :: LastMeshAt(objects, i) ==> LastMesh(objects) == Some(objects[i])
  {
    if objects != [] {
      var n := |objects| - 1;
      var front := objects[..n];
      LastMeshMeans(front);
      assert forall k :: 0 <= k < n ==> front[k] == objects[k];
      if !IsBindMesh(objects[n]) {
        assert LastMesh(objects) == LastMesh(front);
      }
      forall i | LastMeshAt(objects, i)
        ensures LastMesh(objects) == Some(objects[i])
      {
        if i < n {
          assert !IsBindMesh(objects[n]);
          assert LastMeshAt(front, i);
        }
      }
    }
  }

  /** The same description of the last armature named like the rig. */
  lemma {:induction false} LastRigMeans(objects: seq<SceneObject>)
    ensures LastRig(objects).None? <==> forall k :: 0 <= k < |objects| ==> !IsBindRig(objects[k])
    ensures forall i :: LastRigAt(objects, i) ==> LastRig(objects) == Some(objects[i])
  {
    if objects != [] {
      var n := |objects| - 1;
      var front := objects[..n];
      LastRigMeans(front);
      assert forall k :: 0 <= k < n ==> front[k] == objects[k];
      if !IsBindRig(objects[n]) {
        assert LastRig(objects) == LastRig(front);
      }
      forall i | LastRigAt(objects, i)
        ensures LastRig(objects) == Some(objects[i])
      {
        if i < n {
          assert !IsBindRig(objects[n]);
          assert LastRigAt(front, i);
        }
      }
    }
  }
}

/** The fixed human rig: fifteen bone-creation calls and the unchecked bone factory. */
module HumanRig {
  import opened Options
  import opened Vectors
  import opened Armature

  /** One call of the rig's bone factory: name, head, tail and the parent argument. */
  datatype BoneCall = BoneCall(name: string, head: Vec3, tail: Vec3, parent: Option<string>)

  /** The factory's only failure: looking up a parent name the armature does not hold. */
  datatype RigError = MissingParent(parent: string)

  /** What one factory call leaves behind: the bone it added, which exists before the
      lookup runs and so stays even when the lookup raises, and the error raised, if any. */
  datatype Creation = Creation(bone: Bone, raised: Option<RigError>)

  /** What a run of factory calls leaves behind: the armature's bones, and the error that
      stopped the run, if one did. Nothing is rolled back. */
  datatype RigRun = RigRun(bones: seq<Bone>, raised: Option<RigError>)

  /** The fifteen calls, in the order the operator makes them: the spine, the left arm,
      the right arm, the left leg, the right leg, three bones each. */
  const HumanRigCalls: seq<BoneCall> := [
    BoneCall("spine_base", Vec3(0.0, 0.0, 0.0), Vec3(0.0, 0.0, 1.0), None),
    BoneCall("spine_mid", Vec3(0.0, 0.0, 1.0), Vec3(0.0, 0.0, 2.0), Some("spine_base")),
    BoneCall("spine_top", Vec3(0.0, 0.0, 2.0), Vec3(0.0, 0.0, 3.0), Some("spine_mid")),
    BoneCall("shoulder.L", Vec3(0.0, 0.2, 2.5), Vec3(0.0, 0.5, 2.5), Some("spine_top")),
    BoneCall("upper_arm.L", Vec3(0.0, 0.5, 2.5), Vec3(0.0, 0.8, 2.5), Some("shoulder.L")),
    BoneCall("lower_arm.L", Vec3(0.0, 0.8, 2.5), Vec3(0.0, 1.1, 2.5), Some("upper_arm.L")),
    BoneCall("shoulder.R", Vec3(0.0, -0.2, 2.5), Vec3(0.0, -0.5, 2.5), Some("spine_top")),
    BoneCall("upper_arm.R", Vec3(0.0, -0.5, 2.5), Vec3(0.0, -0.8, 2.5), Some("shoulder.R")),
    BoneCall("lower_arm.R", Vec3(0.0, -0.8, 2.5), Vec3(0.0, -1.1, 2.5), Some("upper_arm.R")),
    BoneCall("hip.L", Vec3(0.0, 0.2, 0.0), Vec3(0.0, 0.2, -1.0), Some("spine_base")),
    BoneCall("thigh.L", Vec3(0.0, 0.2, -1.0), Vec3(0.0, 0.2, -2.0), Some("hip.L")),
    BoneCall("shin.L", Vec3(0.0, 0.2, -2.0), Vec3(0.0, 0.2, -3.0), Some("thigh.L")),
    BoneCall("hip.R", Vec3(0.0, -0.2, 0.0), Vec3(0.0, -0.2, -1.0), Some("spine_base")),
    BoneCall("thigh.R", Vec3(0.0, -0.2, -1.0), Vec3(0.0, -0.2, -2.0), Some("hip.R")),
    BoneCall("shin.R", Vec3(0.0, -0.2, -2.0), Vec3(0.0, -0.2, -3.0), Some("thigh.R"))
  ]

  /** The factory: the bone is added under its name first; when a parent argument is given
      (non-empty) it is then looked up by name among the armature's bones, and a name that
      is not there raises, leaving the new bone unparented. A lookup that finds nothing but
      the new bone itself does not raise and makes no link, because the host refuses a bone
      as its own parent. */
  function CreateBoneStrict(arm: seq<Bone>, call: BoneCall): (r: Creation)
    ensures r.bone.name == call.name && r.bone.head == call.head && r.bone.tail == call.tail
    ensures r.raised.Some? <==> Given(call.parent) && call.parent.value !in Names(arm) && call.parent.value != call.name
    ensures r.raised.Some? ==> r.raised == Some(MissingParent(call.parent.value))
    ensures r.bone.parent.Some? <==> Given(call.parent) && call.parent.value in Names(arm)
    ensures r.bone.parent.Some? ==> r.bone.parent == call.parent
  {
    var created := Bone(call.name, call.head, call.tail, None);
    NamesConcat(arm, [created]);
    assert Names([created]) == [call.name];
    if !Given(call.parent) then Creation(created, None)
    else if call.parent.value !in Names(arm + [created]) then Creation(created, Some(MissingParent(call.parent.value)))
    else if call.parent.value in Names(arm) then Creation(created.(parent := call.parent), None)
    else Creation(created, None)
  }

  /** Makes the calls in order; the first call that raises stops the operator, and the
      bones made up to then, the raising call's own included, stay in the armature. */
  function BuildRig(arm: seq<Bone>, calls: seq<BoneCall>): (r: RigRun)
    ensures |arm| <= |r.bones| <= |arm| + |calls| && r.bones[..|arm|] == arm
    ensures r.raised.None? ==> |r.bones| == |arm| + |calls|
  {
    if calls == [] then RigRun(arm, None)
    else
      var before := BuildRig(arm, calls[..|calls| - 1]);
      if before.raised.Some? then before
      else
        var made := CreateBoneStrict(before.bones, calls[|calls| - 1]);
        RigRun(before.bones + [made.bone], made.raised)
  }

  /** The operator: the fifteen calls made into an armature holding `initial`. */
  function CreateHumanRig(initial: seq<Bone>): (r: RigRun)
    ensures r.raised.None? ==> |r.bones| == |initial| + 15 && r.bones[..|initial|] == initial
  {
    BuildRig(initial, HumanRigCalls)
  }

  /** The bone a call produces when its lookup succeeds. */
  function CallBone(call: BoneCall): Bone
  {
    Bone(call.name, call.head, call.tail, if Given(call.parent) then call.parent else None)
  }

  /** Swaps a `.L` name suffix for `.R`; other names stay. */
  function SwapSuffix(name: string): string
  {
    if |name| >= 2 && name[|name| - 2..] == ".L" then name[..|name| - 2] + ".R" else name
  }

  /** The right-side call a left-side call mirrors to: suffix swapped in the bone's and the
      parent's names, head and tail reflected through y = 0. */
  function MirrorCall(call: BoneCall): BoneCall
  {
    BoneCall(SwapSuffix(call.name), MirrorY(call.head), MirrorY(call.tail),
             if call.parent.Some? then Some(SwapSuffix(call.parent.value)) else None)
  }
}

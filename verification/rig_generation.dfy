/** Rig generation: the bone factory, the chain walk over guides, and the chain table. */
module RigGeneration {
  import opened Options
  import opened Vectors
  import opened Scene
  import opened Armature

  /** The stub added to a head when no next guide gives the tail. */
  const TailOffset: Vec3 := Vec3(0.0, 0.0, 0.1)

  /** The name under which the generated armature is created and later looked up. */
  const RigName: string := "AutoRig"

  /** The bone factory: a bone with the given name, head and tail is added to the armature,
      and only then is the parent looked up by name among the armature's bones; the link is
      made only when a parent name is given (non-empty) and the lookup finds it. A lookup
      that finds nothing but the new bone itself makes no link, because the host refuses a
      bone as its own parent. */
  function CreateBone(arm: seq<Bone>, name: string, head: Vec3, tail: Vec3, parent: Option<string>): (b: Bone)
    ensures b.name == name && b.head == head && b.tail == tail
    ensures b.parent.Some? <==> Given(parent) && parent.value in Names(arm)
    ensures b.parent.Some? ==> b.parent == parent
  {
    var created := Bone(name, head, tail, None);
    NamesConcat(arm, [created]);
    assert Names([created]) == [name];
    var found := Given(parent) && parent.value in Names(arm + [created]);
    if found && parent.value in Names(arm) then created.(parent := parent)
    else created
  }

  /** How many (guide, bone) pairs the chain walk visits: `zip` stops at the shorter list. */
  function ZipLength(guides: seq<string>, names: seq<string>): (n: nat)
    ensures n <= |guides| && n <= |names|
    ensures n == |guides| || n == |names|
  {
    if |guides| <= |names| then |guides| else |names|
  }

  /** The tail rule for the bone of the i-th guide: the next listed guide's location when
      that guide exists, otherwise the head raised by `TailOffset`. */
  function BoneTail(scene: Locations, guides: seq<string>, i: nat, head: Vec3): Vec3
    requires i < |guides|
  {
    if i < |guides| - 1 && guides[i + 1] in scene then scene[guides[i + 1]]
    else Add(head, TailOffset)
  }

  /** The bone the chain walk creates for pair i, `built` holding the bones created so far:
      its head is the guide's location, its tail follows the tail rule, and the parent
      asked for is the last bone created. */
  function ChainBone(arm: seq<Bone>, scene: Locations, guides: seq<string>, names: seq<string>,
                     i: nat, built: seq<Bone>): Bone
    requires i < ZipLength(guides, names) && guides[i] in scene
  {
    var head := scene[guides[i]];
    var parent := if built == [] then None else Some(built[|built| - 1].name);
    CreateBone(arm + built, names[i], head, BoneTail(scene, guides, i, head), parent)
  }

  /** The chain walk over the first n pairs: the bones created for pairs 0 .. n-1, where a
      pair whose guide is absent is skipped and any other pair appends its bone. */
  function ChainUpTo(arm: seq<Bone>, scene: Locations, guides: seq<string>, names: seq<string>, n: nat): seq<Bone>
    requires n <= ZipLength(guides, names)
  {
    if n == 0 then []
    else
      var built := ChainUpTo(arm, scene, guides, names, n - 1);
      if guides[n - 1] !in scene then built
      else built + [ChainBone(arm, scene, guides, names, n - 1, built)]
  }

  /** Builds one chain into the armature `arm` and returns the bones it created. */
  function CreateBoneChain(arm: seq<Bone>, scene: Locations, guides: seq<string>, names: seq<string>): seq<Bone>
  {
    ChainUpTo(arm, scene, guides, names, ZipLength(guides, names))
  }

  /** The positions among the first n guides whose guide exists in the scene, ascending. */
  function PresentIndices(scene: Locations, guides: seq<string>, n: nat): (p: seq<nat>)
    requires n <= |guides|
    ensures forall k :: 0 <= k < |p| ==> p[k] < n && guides[p[k]] in scene
  {
    if n == 0 then []
    else PresentIndices(scene, guides, n - 1) + (if guides[n - 1] in scene then [n - 1] else [])
  }

  /** The parent argument a bone name amounts to once Python truthiness is applied. */
  function ParentLink(name: string): Option<string>
  {
    if name == "" then None else Some(name)
  }

  /** The reference chain over a list of pair positions whose guides exist: one bone per
      position, in list order, with the guide's location as head, the tail rule's tail, and
      the bone of the position before it in the list as parent. */
  function ReferenceBones(scene: Locations, guides: seq<string>, names: seq<string>, p: seq<nat>): (r: seq<Bone>)
    requires forall k :: 0 <= k < |p| ==> p[k] < ZipLength(guides, names) && guides[p[k]] in scene
    ensures |r| == |p|
  {
    if p == [] then []
    else
      var i := p[|p| - 1];
      assert i < ZipLength(guides, names) && (|p| > 1 ==> p[|p| - 2] < ZipLength(guides, names));
      var head := scene[guides[i]];
      var parent := if |p| == 1 then None else ParentLink(names[p[|p| - 2]]);
      ReferenceBones(scene, guides, names, p[..|p| - 1]) + [Bone(names[i], head, BoneTail(scene, guides, i, head), parent)]
  }

  /** The reference chain for the first n pairs: the reference bones of the present guides. */
  function ExpectedChain(scene: Locations, guides: seq<string>, names: seq<string>, n: nat): seq<Bone>
    requires n <= ZipLength(guides, names)
  {
    ReferenceBones(scene, guides, names, PresentIndices(scene, guides, n))
  }

  /** One entry of the chain table: its key, the guides to walk and the bones to name. */
  datatype ChainSpec = ChainSpec(key: string, guides: seq<string>, bones: seq<string>)

  /** The chain table, in the order the generator walks it. */
  const ChainTable: seq<ChainSpec> := [
    ChainSpec("spine",
      ["C_Root_Guide", "C_Spine_01_Guide", "C_Spine_02_Guide", "C_Spine_03_Guide"],
      ["C_Root_Bone", "C_Spine_01_Bone", "C_Spine_02_Bone", "C_Spine_03_Bone"]),
    ChainSpec("left_arm",
      ["L_Shoulder_Guide", "L_Arm_Guide", "L_Forearm_Guide", "L_Hand_Guide"],
      ["L_Shoulder_Bone", "L_Arm_Bone", "L_Forearm_Bone", "L_Hand_Bone"]),
    ChainSpec("right_arm",
      ["R_Shoulder_Guide", "R_Arm_Guide", "R_Forearm_Guide", "R_Hand_Guide"],
      ["R_Shoulder_Bone", "R_Arm_Bone", "R_Forearm_Bone", "R_Hand_Bone"]),
    ChainSpec("left_leg",
      ["L_Hip_Guide", "L_Thigh_Guide", "L_Shin_Guide", "L_Foot_Guide"],
      ["L_Hip_Bone", "L_Thigh_Bone", "L_Shin_Bone", "L_Foot_Bone"]),
    ChainSpec("right_leg",
      ["R_Hip_Guide", "R_Thigh_Guide", "R_Shin_Guide", "R_Foot_Guide"],
      ["R_Hip_Bone", "R_Thigh_Bone", "R_Shin_Bone", "R_Foot_Bone"])
  ]

  /** Walks the chains in order, each into the armature the earlier ones left; the result is
      the whole armature, whose first bones are those it started with. */
  function BuildChains(arm: seq<Bone>, scene: Locations, chains: seq<ChainSpec>): (r: seq<Bone>)
    ensures |arm| <= |r| && r[..|arm|] == arm
  {
    if chains == [] then arm
    else
      var before := BuildChains(arm, scene, chains[..|chains| - 1]);
      var c := chains[|chains| - 1];
      before + CreateBoneChain(before, scene, c.guides, c.bones)
  }

  /** The generator: the chain table walked into a fresh armature whose initial bones are
      given. */
  function GenerateRig(initial: seq<Bone>, scene: Locations): (r: seq<Bone>)
    ensures |initial| <= |r| && r[..|initial|] == initial
  {
    BuildChains(initial, scene, ChainTable)
  }
}

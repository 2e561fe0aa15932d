/** Properties of the chain table and of the generated rig. */
module RigFacts {
  import opened Options
  import opened Vectors
  import opened Scene
  import opened Armature
  import opened Guides
  import opened GuideFacts
  import opened RigGeneration
  import opened ChainFacts

  /** The chain table walks the guide table's guides in the table's order, four per chain,
      pairing each with a non-empty bone name. */
  lemma ChainTableMatchesGuideTable()
    ensures |ChainTable| == 5
    ensures forall j :: 0 <= j < |ChainTable| ==> |ChainTable[j].guides| == 4 && |ChainTable[j].bones| == 4
    ensures forall j, i :: 0 <= j < 5 && 0 <= i < 4 ==>
      ChainTable[j].guides[i] == GuideTable[4 * j + i].name && ChainTable[j].bones[i] != ""
  {
    forall j, i | 0 <= j < 5 && 0 <= i < 4
      ensures ChainTable[j].guides[i] == GuideTable[4 * j + i].name && ChainTable[j].bones[i] != ""
    {
      var t := GuideTable;
      if j == 0 {
        assert t[i] == SpineGuides[i];
      } else if j == 1 {
        assert t[4 + i] == LeftArmGuides[i];
      } else if j == 2 {
        assert t[8 + i] == RightArmGuides[i];
      } else if j == 3 {
        assert t[12 + i] == LeftLegGuides[i];
      } else {
        assert t[16 + i] == RightLegGuides[i];
      }
    }
  }

  /** A chain has four guides that all exist in the scene and four non-empty bone names. */
  predicate ChainPresent(scene: Locations, c: ChainSpec)
  {
    |c.guides| == 4 && |c.bones| == 4 && forall i :: 0 <= i < 4 ==> c.guides[i] in scene && c.bones[i] != ""
  }

  /** Bone i of a chain whose four guides exist: at guide i, with the next guide (or, for
      the last, the stub) as tail, parented to bone i-1 of the chain, bone 0 being a root. */
  function PlannedBone(scene: Locations, c: ChainSpec, i: nat): Bone
    requires ChainPresent(scene, c) && i < 4
  {
    var head := scene[c.guides[i]];
    Bone(c.bones[i], head,
         if i < 3 then scene[c.guides[i + 1]] else Add(head, TailOffset),
         if i == 0 then None else Some(c.bones[i - 1]))
  }

  /** The four bones such a chain turns into, in order. */
  predicate LaidOut(seg: seq<Bone>, scene: Locations, c: ChainSpec)
    requires ChainPresent(scene, c)
  {
    seg == [PlannedBone(scene, c, 0), PlannedBone(scene, c, 1), PlannedBone(scene, c, 2), PlannedBone(scene, c, 3)]
  }

  /** One chain of four present guides is laid out as described. */
  lemma ChainLaysOut(arm: seq<Bone>, scene: Locations, c: ChainSpec)
    requires ChainPresent(scene, c)
    ensures LaidOut(CreateBoneChain(arm, scene, c.guides, c.bones), scene, c)
  {
    var made := CreateBoneChain(arm, scene, c.guides, c.bones);
    ChainAllPresent(arm, scene, c.guides, c.bones);
    ChainParents(arm, scene, c.guides, c.bones);
    forall i | 0 <= i < 4 ensures made[i] == PlannedBone(scene, c, i) {
      if i > 0 {
        assert made[i - 1].name == c.bones[i - 1];
      }
    }
  }

  /** The walk's output when every chain has four present guides: the bones it started with,
      then four bones per chain, laid out as described, in table order. */
  lemma {:induction false} BuildChainsAllPresent(arm: seq<Bone>, scene: Locations, chains: seq<ChainSpec>)
    requires forall j :: 0 <= j < |chains| ==> ChainPresent(scene, chains[j])
    ensures |BuildChains(arm, scene, chains)| == |arm| + 4 * |chains|
    ensures forall j :: 0 <= j < |chains| ==>
      LaidOut(BuildChains(arm, scene, chains)[|arm| + 4 * j .. |arm| + 4 * j + 4], scene, chains[j])
  {
    if chains != [] {
      var n := |chains| - 1;
      var front := chains[..n];
      var c := chains[n];
      BuildChainsAllPresent(arm, scene, front);
      var before := BuildChains(arm, scene, front);
      var made := CreateBoneChain(before, scene, c.guides, c.bones);
      var r := BuildChains(arm, scene, chains);
      assert r == before + made;
      ChainLaysOut(before, scene, c);
      forall j | 0 <= j < |chains|
        ensures LaidOut(r[|arm| + 4 * j .. |arm| + 4 * j + 4], scene, chains[j])
      {
        if j < n {
          assert front[j] == chains[j];
          assert LaidOut(before[|arm| + 4 * j .. |arm| + 4 * j + 4], scene, front[j]);
          SliceOfFront(before, made, |arm| + 4 * j, |arm| + 4 * j + 4);
        } else {
          SliceOfBack(before, made);
        }
      }
    }
  }

  /** A slice of a concatenation that stays inside its first part. */
  lemma SliceOfFront(a: seq<Bone>, b: seq<Bone>, lo: nat, hi: nat)
    requires lo <= hi <= |a|
    ensures (a + b)[lo..hi] == a[lo..hi]
  {
  }

  /** The slice of a concatenation that covers exactly its second part. */
  lemma SliceOfBack(a: seq<Bone>, b: seq<Bone>)
    ensures (a + b)[|a|..|a| + |b|] == b
  {
  }

  /** A laid-out chain holds exactly one root. */
  lemma LaidOutRoot(seg: seq<Bone>, scene: Locations, c: ChainSpec)
    requires ChainPresent(scene, c) && LaidOut(seg, scene, c)
    ensures RootCount(seg) == 1
  {
    var b := [PlannedBone(scene, c, 0), PlannedBone(scene, c, 1), PlannedBone(scene, c, 2), PlannedBone(scene, c, 3)];
    assert b[..3][..2][..1] == [b[0]] && [b[0]][..0] == [];
    assert RootCount([b[0]]) == 1;
    assert RootCount(b[..3][..2]) == 1;
    assert RootCount(b[..3]) == 1;
  }

  /** Walking chains of four present guides each adds one root per chain. */
  lemma {:induction false} BuildChainsRoots(arm: seq<Bone>, scene: Locations, chains: seq<ChainSpec>)
    requires forall j :: 0 <= j < |chains| ==> ChainPresent(scene, chains[j])
    ensures RootCount(BuildChains(arm, scene, chains)) == RootCount(arm) + |chains|
  {
    if chains != [] {
      var n := |chains| - 1;
      var front := chains[..n];
      var c := chains[n];
      BuildChainsRoots(arm, scene, front);
      var before := BuildChains(arm, scene, front);
      var made := CreateBoneChain(before, scene, c.guides, c.bones);
      ChainLaysOut(before, scene, c);
      LaidOutRoot(made, scene, c);
      RootCountConcat(before, made);
    }
  }

  /** Some guide the chain visits exists in the scene. */
  predicate HasGuide(scene: Locations, c: ChainSpec)
  {
    exists i :: 0 <= i < ZipLength(c.guides, c.bones) && c.guides[i] in scene
  }

  /** How many of the chains have a guide in the scene. */
  function ChainsWithGuides(scene: Locations, chains: seq<ChainSpec>): (n: nat)
    ensures n <= |chains|
  {
    if chains == [] then 0
    else ChainsWithGuides(scene, chains[..|chains| - 1]) + (if HasGuide(scene, chains[|chains| - 1]) then 1 else 0)
  }

  /** Roots of any walk, guides missing or not: as long as every visited guide's bone name
      is non-empty, each chain with a guide in the scene adds exactly one root and a chain
      with none adds nothing. */
  lemma {:induction false} BuildChainsRootCount(arm: seq<Bone>, scene: Locations, chains: seq<ChainSpec>)
    requires forall j, i ::
      (0 <= j < |chains| && 0 <= i < ZipLength(chains[j].guides, chains[j].bones) && chains[j].guides[i] in scene)
      ==> chains[j].bones[i] != ""
    ensures RootCount(BuildChains(arm, scene, chains)) == RootCount(arm) + ChainsWithGuides(scene, chains)
  {
    if chains != [] {
      var n := |chains| - 1;
      var front := chains[..n];
      var c := chains[n];
      assert forall j :: 0 <= j < n ==> front[j] == chains[j];
      BuildChainsRootCount(arm, scene, front);
      var before := BuildChains(arm, scene, front);
      var made := CreateBoneChain(before, scene, c.guides, c.bones);
      ChainRoots(before, scene, c.guides, c.bones);
      RootCountConcat(before, made);
      if HasGuide(scene, c) {
        var i :| 0 <= i < ZipLength(c.guides, c.bones) && c.guides[i] in scene;
        assert RootCount(made) == 1;
      }
    }
  }

  /** The generator on any scene: one root per chain of the table that has a guide in the
      scene, so at most five, and parent links keep pointing backwards. */
  lemma GenerateRigRoots(initial: seq<Bone>, scene: Locations)
    ensures RootCount(GenerateRig(initial, scene)) == RootCount(initial) + ChainsWithGuides(scene, ChainTable)
    ensures RootCount(GenerateRig(initial, scene)) <= RootCount(initial) + 5
    ensures ParentsEarlier(initial) ==> ParentsEarlier(GenerateRig(initial, scene))
  {
    ChainTableMatchesGuideTable();
    BuildChainsRootCount(initial, scene, ChainTable);
    if ParentsEarlier(initial) {
      BuildChainsKeepsParentsEarlier(initial, scene, ChainTable);
    }
  }

  /** Every chain walk keeps each parent link pointing at a bone created earlier. */
  lemma {:induction false} BuildChainsKeepsParentsEarlier(arm: seq<Bone>, scene: Locations, chains: seq<ChainSpec>)
    requires ParentsEarlier(arm)
    ensures ParentsEarlier(BuildChains(arm, scene, chains))
  {
    if chains != [] {
      var front := chains[..|chains| - 1];
      var c := chains[|chains| - 1];
      BuildChainsKeepsParentsEarlier(arm, scene, front);
      ChainKeepsParentsEarlier(BuildChains(arm, scene, front), scene, c.guides, c.bones);
    }
  }

  /** Where bone i of chain j lands among the bones the walk adds, every chain adding four. */
  function Slot(j: int, i: int): int
  {
    4 * j + i
  }

  /** Bone i of chain j, after the walk's starting bones, is named from the chain and headed
      at its guide. */
  lemma BuildChainsBones(arm: seq<Bone>, scene: Locations, chains: seq<ChainSpec>)
    requires forall j :: 0 <= j < |chains| ==> |chains[j].guides| == 4 && |chains[j].bones| == 4
    requires forall j, i :: 0 <= j < |chains| && 0 <= i < 4 ==> chains[j].guides[i] in scene && chains[j].bones[i] != ""
    ensures |BuildChains(arm, scene, chains)| == |arm| + 4 * |chains|
    ensures forall j, i :: 0 <= j < |chains| && 0 <= i < 4 ==>
      && BuildChains(arm, scene, chains)[|arm| + Slot(j, i)].name == chains[j].bones[i]
      && BuildChains(arm, scene, chains)[|arm| + Slot(j, i)].head == scene[chains[j].guides[i]]
  {
    var r := BuildChains(arm, scene, chains);
    assert forall j :: 0 <= j < |chains| ==> ChainPresent(scene, chains[j]);
    BuildChainsAllPresent(arm, scene, chains);
    forall j, i | 0 <= j < |chains| && 0 <= i < 4
      ensures && r[|arm| + Slot(j, i)].name == chains[j].bones[i]
              && r[|arm| + Slot(j, i)].head == scene[chains[j].guides[i]]
    {
      BuildChainsBoneAt(r, arm, scene, chains, j, i);
    }
  }

  /** One bone of the walk, read off its chain's laid-out segment. */
  lemma BuildChainsBoneAt(r: seq<Bone>, arm: seq<Bone>, scene: Locations, chains: seq<ChainSpec>, j: nat, i: nat)
    requires j < |chains| && i < 4 && ChainPresent(scene, chains[j])
    requires |r| == |arm| + 4 * |chains|
    requires LaidOut(r[|arm| + 4 * j .. |arm| + 4 * j + 4], scene, chains[j])
    ensures r[|arm| + Slot(j, i)].name == chains[j].bones[i]
    ensures r[|arm| + Slot(j, i)].head == scene[chains[j].guides[i]]
  {
    var seg := r[|arm| + 4 * j .. |arm| + 4 * j + 4];
    LaidOutBone(seg, scene, chains[j], i);
    assert r[|arm| + Slot(j, i)] == seg[i];
  }

  /** Bone i of a laid-out chain is named from the chain and headed at its guide. */
  lemma LaidOutBone(seg: seq<Bone>, scene: Locations, c: ChainSpec, i: nat)
    requires ChainPresent(scene, c) && LaidOut(seg, scene, c) && i < 4
    ensures seg[i].name == c.bones[i] && seg[i].head == scene[c.guides[i]]
  {
    assert seg[i] == PlannedBone(scene, c, i);
  }

  /** When every chain's guides stand where a list of created guides puts them, bone i of
      chain j heads at the location of guide Slot(j, i) of that list. */
  lemma BuildChainsHeadsAtGuides(arm: seq<Bone>, scene: Locations, chains: seq<ChainSpec>, placed: seq<Guide>)
    requires forall j :: 0 <= j < |chains| ==> |chains[j].guides| == 4 && |chains[j].bones| == 4
    requires forall j, i :: 0 <= j < |chains| && 0 <= i < 4 ==> chains[j].guides[i] in scene && chains[j].bones[i] != ""
    requires |placed| == 4 * |chains|
    requires forall j, i :: 0 <= j < |chains| && 0 <= i < 4 ==> scene[chains[j].guides[i]] == placed[Slot(j, i)].location
    ensures |BuildChains(arm, scene, chains)| == |arm| + 4 * |chains|
    ensures forall j, i :: 0 <= j < |chains| && 0 <= i < 4 ==>
      && BuildChains(arm, scene, chains)[|arm| + Slot(j, i)].name == chains[j].bones[i]
      && BuildChains(arm, scene, chains)[|arm| + Slot(j, i)].head == placed[Slot(j, i)].location
  {
    BuildChainsBones(arm, scene, chains);
  }

  /** The scene the guide operator leaves holds every guide the chain table walks, each at
      the location of the guide created from the matching guide table row. */
  lemma CreatedGuidesCoverChains(active: Option<SceneObject>, height: real, width: real, center: Vec3)
    requires active.Some? && active.value.kind == MeshType
    ensures CreateGuides(active, height, width, center).GuidesFinished?
    ensures |CreateGuides(active, height, width, center).guides| == 20
    ensures forall j, i :: 0 <= j < |ChainTable| && 0 <= i < 4 ==>
      && ChainTable[j].guides[i] in GuideScene(CreateGuides(active, height, width, center).guides)
      && GuideScene(CreateGuides(active, height, width, center).guides)[ChainTable[j].guides[i]]
           == CreateGuides(active, height, width, center).guides[Slot(j, i)].location
  {
    var guides := CreateGuides(active, height, width, center).guides;
    CreatedGuidesLookup(active, height, width, center);
    ChainGuidesResolve(guides, GuideScene(guides));
  }

  /** A scene holding every row of the guide table at a placed guide's location holds every
      guide the chain table names, at the location of the guide in its slot. */
  lemma ChainGuidesResolve(guides: seq<Guide>, scene: Locations)
    requires |guides| == 20
    requires forall k :: 0 <= k < 20 ==>
      && guides[k].name == GuideTable[k].name
      && guides[k].name in scene
      && scene[guides[k].name] == guides[k].location
    ensures forall j, i :: 0 <= j < |ChainTable| && 0 <= i < 4 ==>
      ChainTable[j].guides[i] in scene && scene[ChainTable[j].guides[i]] == guides[Slot(j, i)].location
  {
    ChainTableMatchesGuideTable();
    forall j, i | 0 <= j < |ChainTable| && 0 <= i < 4
      ensures ChainTable[j].guides[i] in scene && scene[ChainTable[j].guides[i]] == guides[Slot(j, i)].location
    {
      var k := Slot(j, i);
      assert guides[k].name == GuideTable[k].name;
      assert ChainTable[j].guides[i] == guides[k].name;
    }
  }

  /** Each created guide is named after its guide table row and is found in the scene under
      that name, at its own location. */
  lemma CreatedGuidesLookup(active: Option<SceneObject>, height: real, width: real, center: Vec3)
    requires active.Some? && active.value.kind == MeshType
    ensures CreateGuides(active, height, width, center).GuidesFinished?
    ensures var guides := CreateGuides(active, height, width, center).guides;
      && |guides| == 20
      && forall k :: 0 <= k < 20 ==>
        && guides[k].name == GuideTable[k].name
        && guides[k].name in GuideScene(guides)
        && GuideScene(guides)[guides[k].name] == guides[k].location
  {
    var guides := CreateGuides(active, height, width, center).guides;
    GuideNamesDistinct();
    GuideSceneLookup(guides);
  }

  /** End to end: after the guides are created on a mesh, generating the rig appends twenty
      bones, four per chain in table order, each named from the chain table and headed at the
      location of the guide created from the same guide table row; it adds five roots and
      keeps parent links pointing backwards, so every link names a bone of the armature. */
  lemma GenerateRigFromGuides(initial: seq<Bone>, active: Option<SceneObject>, height: real, width: real, center: Vec3)
    requires active.Some? && active.value.kind == MeshType
    ensures CreateGuides(active, height, width, center).GuidesFinished?
    ensures |GenerateRig(initial, GuideScene(CreateGuides(active, height, width, center).guides))| == |initial| + 20
    ensures forall j, i :: 0 <= j < |ChainTable| && 0 <= i < 4 ==>
      && GenerateRig(initial, GuideScene(CreateGuides(active, height, width, center).guides))[|initial| + Slot(j, i)].name
           == ChainTable[j].bones[i]
      && GenerateRig(initial, GuideScene(CreateGuides(active, height, width, center).guides))[|initial| + Slot(j, i)].head
           == CreateGuides(active, height, width, center).guides[Slot(j, i)].location
    ensures RootCount(GenerateRig(initial, GuideScene(CreateGuides(active, height, width, center).guides)))
      == RootCount(initial) + 5
    ensures ParentsEarlier(initial) ==>
      ParentsEarlier(GenerateRig(initial, GuideScene(CreateGuides(active, height, width, center).guides)))
    ensures ParentsEarlier(initial) ==>
      ParentsResolve(GenerateRig(initial, GuideScene(CreateGuides(active, height, width, center).guides)))
  {
    var guides := CreateGuides(active, height, width, center).guides;
    var scene := GuideScene(guides);
    CreatedGuidesCoverChains(active, height, width, center);
    ChainTableMatchesGuideTable();
    BuildChainsHeadsAtGuides(initial, scene, ChainTable, guides);
    BuildChainsRoots(initial, scene, ChainTable);
    if ParentsEarlier(initial) {
      BuildChainsKeepsParentsEarlier(initial, scene, ChainTable);
      EarlierParentsResolve(GenerateRig(initial, scene));
    }
  }
}

/** Properties of the chain walk, proved against the reference definition. */
module ChainFacts {
  import opened Options
  import opened Vectors
  import opened Scene
  import opened Armature
  import opened RigGeneration

  /** One step of the reference: pair i adds a bone exactly when its guide exists, and that
      bone is the one the walk creates after the bones of the earlier pairs. */
  lemma ExpectedStep(arm: seq<Bone>, scene: Locations, guides: seq<string>, names: seq<string>, i: nat)
    requires i < ZipLength(guides, names)
    ensures guides[i] !in scene ==> ExpectedChain(scene, guides, names, i + 1) == ExpectedChain(scene, guides, names, i)
    ensures guides[i] in scene ==> (ExpectedChain(scene, guides, names, i + 1)
      == ExpectedChain(scene, guides, names, i) + [ChainBone(arm, scene, guides, names, i, ExpectedChain(scene, guides, names, i))])
  {
    var p := PresentIndices(scene, guides, i);
    var p' := PresentIndices(scene, guides, i + 1);
    var built := ExpectedChain(scene, guides, names, i);
    if guides[i] in scene {
      assert p' == p + [i];
      assert p'[..|p'| - 1] == p;
      if built != [] {
        NamesConcat(arm, built);
        ReferenceBonesLast(scene, guides, names, p);
        assert Names(built)[|built| - 1] == built[|built| - 1].name;
      }
    } else {
      assert p' == p;
    }
  }

  /** The last reference bone is named after the last position's bone name. */
  lemma ReferenceBonesLast(scene: Locations, guides: seq<string>, names: seq<string>, p: seq<nat>)
    requires forall k :: 0 <= k < |p| ==> p[k] < ZipLength(guides, names) && guides[p[k]] in scene
    requires p != []
    ensures ReferenceBones(scene, guides, names, p)[|p| - 1].name == names[p[|p| - 1]]
  {
  }

  lemma {:induction false} ChainUpToMatches(arm: seq<Bone>, scene: Locations, guides: seq<string>,
                                            names: seq<string>, n: nat)
    requires n <= ZipLength(guides, names)
    ensures ChainUpTo(arm, scene, guides, names, n) == ExpectedChain(scene, guides, names, n)
  {
    if n > 0 {
      ChainUpToMatches(arm, scene, guides, names, n - 1);
      ExpectedStep(arm, scene, guides, names, n - 1);
    }
  }

  /** The present positions are listed in ascending order, and every position below n
      whose guide exists is listed. */
  lemma {:induction false} PresentIndicesExact(scene: Locations, guides: seq<string>, n: nat)
    requires n <= |guides|
    ensures forall k, l :: 0 <= k < l < |PresentIndices(scene, guides, n)| ==>
      PresentIndices(scene, guides, n)[k] < PresentIndices(scene, guides, n)[l]
    ensures forall i :: 0 <= i < n && guides[i] in scene <==> i in PresentIndices(scene, guides, n)
  {
    if n > 0 {
      PresentIndicesExact(scene, guides, n - 1);
    }
  }

  /** The chain walk computes the reference chain, whatever bones the armature already has. */
  lemma CreateBoneChainMatchesReference(arm: seq<Bone>, scene: Locations, guides: seq<string>, names: seq<string>)
    ensures CreateBoneChain(arm, scene, guides, names) == ExpectedChain(scene, guides, names, ZipLength(guides, names))
  {
    ChainUpToMatches(arm, scene, guides, names, ZipLength(guides, names));
  }

  /** Element k of the reference bones, written out. */
  lemma {:induction false} ReferenceBonesAt(scene: Locations, guides: seq<string>, names: seq<string>, p: seq<nat>)
    requires forall k :: 0 <= k < |p| ==> p[k] < ZipLength(guides, names) && guides[p[k]] in scene
    ensures forall k {:trigger ReferenceBones(scene, guides, names, p)[k]} :: 0 <= k < |p| ==>
      ReferenceBones(scene, guides, names, p)[k] ==
        Bone(names[p[k]], scene[guides[p[k]]], BoneTail(scene, guides, p[k], scene[guides[p[k]]]),
             if k == 0 then None else ParentLink(names[p[k - 1]]))
  {
    if p != [] {
      var q := p[..|p| - 1];
      ReferenceBonesAt(scene, guides, names, q);
      var r := ReferenceBones(scene, guides, names, p);
      var rq := ReferenceBones(scene, guides, names, q);
      assert r[..|p| - 1] == rq;
      assert r[|p| - 1] == Bone(names[p[|p| - 1]], scene[guides[p[|p| - 1]]],
                                BoneTail(scene, guides, p[|p| - 1], scene[guides[p[|p| - 1]]]),
                                if |p| == 1 then None else ParentLink(names[p[|p| - 2]]));
      forall k | 0 <= k < |p|
        ensures r[k] == Bone(names[p[k]], scene[guides[p[k]]], BoneTail(scene, guides, p[k], scene[guides[p[k]]]),
                             if k == 0 then None else ParentLink(names[p[k - 1]]))
      {
        if k < |p| - 1 {
          assert rq[k] == Bone(names[q[k]], scene[guides[q[k]]], BoneTail(scene, guides, q[k], scene[guides[q[k]]]),
                               if k == 0 then None else ParentLink(names[q[k - 1]]));
          assert r[k] == rq[k];
          assert q[k] == p[k];
          if k > 0 {
            assert q[k - 1] == p[k - 1];
          }
        }
      }
    }
  }

  /** Bone count and names: the chain has one bone per present position, in the order of
      the positions, each named after its pair. */
  lemma ChainBonesFollowPresentGuides(arm: seq<Bone>, scene: Locations, guides: seq<string>, names: seq<string>)
    ensures var r := CreateBoneChain(arm, scene, guides, names);
      var p := PresentIndices(scene, guides, ZipLength(guides, names));
      && |r| == |p|
      && (forall k :: 0 <= k < |p| ==> r[k].name == names[p[k]])
  {
    var p := PresentIndices(scene, guides, ZipLength(guides, names));
    CreateBoneChainMatchesReference(arm, scene, guides, names);
    ReferenceBonesAt(scene, guides, names, p);
    assert CreateBoneChain(arm, scene, guides, names) == ReferenceBones(scene, guides, names, p);
  }

  /** Head and tail rule: each bone's head is its guide's location; its tail is the next
      listed guide's location when that guide exists, and otherwise (the last guide of the
      chain included) the head raised by 0.1. */
  lemma ChainHeadsAndTails(arm: seq<Bone>, scene: Locations, guides: seq<string>, names: seq<string>)
    ensures var r := CreateBoneChain(arm, scene, guides, names);
      var p := PresentIndices(scene, guides, ZipLength(guides, names));
      && |r| == |p|
      && forall k :: 0 <= k < |p| ==>
        && r[k].head == scene[guides[p[k]]]
        && r[k].tail == (if p[k] + 1 < |guides| && guides[p[k] + 1] in scene then scene[guides[p[k] + 1]]
                         else Add(r[k].head, TailOffset))
  {
    var p := PresentIndices(scene, guides, ZipLength(guides, names));
    CreateBoneChainMatchesReference(arm, scene, guides, names);
    ReferenceBonesAt(scene, guides, names, p);
    assert CreateBoneChain(arm, scene, guides, names) == ReferenceBones(scene, guides, names, p);
  }

  /** Parent rule: the first bone created has no parent, and every later bone is parented to
      the bone created just before it (when that bone's name is non-empty), not to the bone
      of the previous pair. */
  lemma ChainParents(arm: seq<Bone>, scene: Locations, guides: seq<string>, names: seq<string>)
    ensures var r := CreateBoneChain(arm, scene, guides, names);
      && (|r| > 0 ==> r[0].parent == None)
      && (forall k :: 0 < k < |r| ==> r[k].parent == ParentLink(r[k - 1].name))
  {
    var p := PresentIndices(scene, guides, ZipLength(guides, names));
    CreateBoneChainMatchesReference(arm, scene, guides, names);
    ReferenceBonesAt(scene, guides, names, p);
    assert CreateBoneChain(arm, scene, guides, names) == ReferenceBones(scene, guides, names, p);
  }

  /** Roots of one chain: when every pair whose guide exists has a non-empty bone name, the
      chain holds exactly one parentless bone if any of its guides exists, and none
      otherwise. */
  lemma ChainRoots(arm: seq<Bone>, scene: Locations, guides: seq<string>, names: seq<string>)
    requires forall i :: 0 <= i < ZipLength(guides, names) && guides[i] in scene ==> names[i] != ""
    ensures forall i :: 0 <= i < ZipLength(guides, names) && guides[i] in scene ==>
      RootCount(CreateBoneChain(arm, scene, guides, names)) == 1
    ensures (forall i :: 0 <= i < ZipLength(guides, names) ==> guides[i] !in scene) ==>
      RootCount(CreateBoneChain(arm, scene, guides, names)) == 0
  {
    var r := CreateBoneChain(arm, scene, guides, names);
    var p := PresentIndices(scene, guides, ZipLength(guides, names));
    ChainBonesFollowPresentGuides(arm, scene, guides, names);
    ChainParents(arm, scene, guides, names);
    forall k | 0 < k < |r|
      ensures r[k].parent.Some?
    {
      assert r[k - 1].name == names[p[k - 1]] != "";
    }
    SingleRoot(r);
    if r == [] {
      PresentIndicesExact(scene, guides, ZipLength(guides, names));
    } else {
      assert p[0] < ZipLength(guides, names) && guides[p[0]] in scene;
    }
  }

  /** A run of bones in which only the first may lack a parent has one root, or none when
      it is empty. */
  lemma SingleRoot(r: seq<Bone>)
    requires |r| > 0 ==> r[0].parent.None?
    requires forall k :: 0 < k < |r| ==> r[k].parent.Some?
    ensures RootCount(r) == if r == [] then 0 else 1
  {
    RootCountIsParentless(r);
    if r == [] {
      assert (set k | 0 <= k < |r| && r[k].parent.None?) == {};
    } else {
      assert (set k | 0 <= k < |r| && r[k].parent.None?) == {0};
    }
  }

  /** With every guide present, the present positions are 0 .. n-1. */
  lemma {:induction false} PresentIndicesAll(scene: Locations, guides: seq<string>, n: nat)
    requires n <= |guides|
    requires forall i :: 0 <= i < n ==> guides[i] in scene
    ensures PresentIndices(scene, guides, n) == seq(n, i => i)
  {
    if n > 0 {
      PresentIndicesAll(scene, guides, n - 1);
      assert seq(n, i => i) == seq(n - 1, i => i) + [n - 1];
    }
  }

  /** When every guide of the chain exists, one bone is created per pair, named after it,
      and consecutive bones are connected: each tail is the next bone's head. */
  lemma ChainAllPresent(arm: seq<Bone>, scene: Locations, guides: seq<string>, names: seq<string>)
    requires forall i :: 0 <= i < |guides| ==> guides[i] in scene
    ensures var r := CreateBoneChain(arm, scene, guides, names);
      && |r| == ZipLength(guides, names)
      && (forall k :: 0 <= k < |r| ==> r[k].name == names[k] && r[k].head == scene[guides[k]])
      && (forall k :: 0 <= k < |r| - 1 ==> r[k].tail == r[k + 1].head)
      && (|r| == |guides| > 0 ==> r[|r| - 1].tail == Add(r[|r| - 1].head, TailOffset))
  {
    var r := CreateBoneChain(arm, scene, guides, names);
    AllPresentLength(arm, scene, guides, names);
    forall k | 0 <= k < |r|
      ensures r[k].name == names[k] && r[k].head == scene[guides[k]]
    {
      AllPresentAt(arm, scene, guides, names, k);
    }
    forall k | 0 <= k < |r| - 1
      ensures r[k].tail == r[k + 1].head
    {
      AllPresentAt(arm, scene, guides, names, k);
      AllPresentAt(arm, scene, guides, names, k + 1);
    }
    if |r| == |guides| > 0 {
      AllPresentAt(arm, scene, guides, names, |r| - 1);
    }
  }

  /** With every guide present, the chain has one bone per visited pair. */
  lemma AllPresentLength(arm: seq<Bone>, scene: Locations, guides: seq<string>, names: seq<string>)
    requires forall i :: 0 <= i < |guides| ==> guides[i] in scene
    ensures |CreateBoneChain(arm, scene, guides, names)| == ZipLength(guides, names)
  {
    PresentIndicesAll(scene, guides, ZipLength(guides, names));
    ChainBonesFollowPresentGuides(arm, scene, guides, names);
  }

  /** With every guide present, bone k is pair k's bone: named after it, headed at its
      guide, and tailed at the next guide when there is one, else by the stub. */
  lemma AllPresentAt(arm: seq<Bone>, scene: Locations, guides: seq<string>, names: seq<string>, k: nat)
    requires forall i :: 0 <= i < |guides| ==> guides[i] in scene
    requires k < ZipLength(guides, names)
    ensures var r := CreateBoneChain(arm, scene, guides, names);
      && |r| == ZipLength(guides, names)
      && r[k].name == names[k]
      && r[k].head == scene[guides[k]]
      && r[k].tail == (if k + 1 < |guides| then scene[guides[k + 1]] else Add(r[k].head, TailOffset))
  {
    var p := PresentIndices(scene, guides, ZipLength(guides, names));
    PresentIndicesAll(scene, guides, ZipLength(guides, names));
    ChainBonesFollowPresentGuides(arm, scene, guides, names);
    ChainHeadsAndTails(arm, scene, guides, names);
    assert p[k] == k;
  }

  /** A chain walk leaves the parent links of the armature resolvable: every parent it sets
      names a bone created before it in the same chain. */
  lemma ChainKeepsParentsEarlier(arm: seq<Bone>, scene: Locations, guides: seq<string>, names: seq<string>)
    requires ParentsEarlier(arm)
    ensures ParentsEarlier(arm + CreateBoneChain(arm, scene, guides, names))
  {
    var r := CreateBoneChain(arm, scene, guides, names);
    var all := arm + r;
    ChainParents(arm, scene, guides, names);
    forall i | 0 <= i < |all| && all[i].parent.Some?
      ensures all[i].parent.value in Names(all[..i])
    {
      if i < |arm| {
        assert all[..i] == arm[..i];
      } else {
        var k := i - |arm|;
        assert k > 0 && all[i - 1] == r[k - 1];
        assert Names(all[..i])[i - 1] == all[i - 1].name;
      }
    }
  }

  /** A missing middle guide: with guides a, b, c and only a and c in the scene, two bones are
      created; the first gets a stub tail because the next guide is absent, and the second is
      parented to the first. */
  lemma MissingMiddleGuideExample(arm: seq<Bone>, pa: Vec3, pc: Vec3)
    ensures CreateBoneChain(arm, map["a" := pa, "c" := pc], ["a", "b", "c"], ["A", "B", "C"])
      == [Bone("A", pa, Add(pa, TailOffset), None), Bone("C", pc, Add(pc, TailOffset), Some("A"))]
  {
    var scene := map["a" := pa, "c" := pc];
    var guides := ["a", "b", "c"];
    var names := ["A", "B", "C"];
    assert guides[0] in scene && guides[1] !in scene && guides[2] in scene;
    assert BoneTail(scene, guides, 0, pa) == Add(pa, TailOffset);
    assert BoneTail(scene, guides, 2, pc) == Add(pc, TailOffset);
    assert ChainUpTo(arm, scene, guides, names, 0) == [];
    var b0 := ChainUpTo(arm, scene, guides, names, 1);
    assert b0 == [ChainBone(arm, scene, guides, names, 0, [])];
    assert b0 == [Bone("A", pa, Add(pa, TailOffset), None)];
    assert ChainUpTo(arm, scene, guides, names, 2) == b0;
    NamesConcat(arm, b0);
    assert Names(arm + b0)[|arm|] == "A";
  }
}

/** What the fifteen-call human rig guarantees: it always builds, its names are unique,
    it is one tree rooted at the spine base, and its sides mirror each other. */
module HumanRigFacts {
  import opened Options
  import opened Vectors
  import opened Scene
  import opened Armature
  import opened HumanRig

  /** The bones the calls make when every lookup succeeds. */
  function CallBones(calls: seq<BoneCall>): (r: seq<Bone>)
    ensures |r| == |calls|
    ensures forall k :: 0 <= k < |calls| ==> r[k] == CallBone(calls[k])
  {
    seq(|calls|, k requires 0 <= k < |calls| => CallBone(calls[k]))
  }

  /** Call `k`'s parent lookup succeeds: no parent is given, or the name is already in the
      armature, or it is one of the bones made so far, call `k`'s own included. */
  predicate CallResolves(arm: seq<Bone>, calls: seq<BoneCall>, k: int)
    requires 0 <= k < |calls|
  {
    !Given(calls[k].parent) || calls[k].parent.value in Names(arm) + Names(CallBones(calls[..k + 1]))
  }

  predicate CallsResolve(arm: seq<Bone>, calls: seq<BoneCall>)
  {
    forall k :: 0 <= k < |calls| ==> CallResolves(arm, calls, k)
  }

  /** The bone call `k` adds when every earlier call succeeded: it is linked to its parent
      exactly when a parent is given and a bone made before it carries that name. */
  function MadeBone(arm: seq<Bone>, calls: seq<BoneCall>, k: int): Bone
    requires 0 <= k < |calls|
  {
    var p := calls[k].parent;
    Bone(calls[k].name, calls[k].head, calls[k].tail,
         if Given(p) && p.value in Names(arm) + Names(CallBones(calls[..k])) then p else None)
  }

  /** The bones a run of calls adds when none of them raises. */
  function MadeBones(arm: seq<Bone>, calls: seq<BoneCall>): (r: seq<Bone>)
    ensures |r| == |calls|
    ensures forall k :: 0 <= k < |calls| ==> r[k] == MadeBone(arm, calls, k)
  {
    seq(|calls|, k requires 0 <= k < |calls| => MadeBone(arm, calls, k))
  }

  /** The bone a raising call leaves behind: created, but never given its parent. */
  function Unlinked(call: BoneCall): (b: Bone)
    ensures b.name == call.name && b.head == call.head && b.tail == call.tail && b.parent.None?
  {
    Bone(call.name, call.head, call.tail, None)
  }

  /** Dropping the last call does not change whether an earlier call resolves. */
  lemma ResolvesInPrefix(arm: seq<Bone>, calls: seq<BoneCall>, k: nat)
    requires k < |calls| - 1
    ensures CallResolves(arm, calls, k) <==> CallResolves(arm, calls[..|calls| - 1], k)
  {
    assert calls[..k + 1] == calls[..|calls| - 1][..k + 1];
  }

  /** Dropping the last call does not change the bones the earlier calls make. */
  lemma MadeBonesFront(arm: seq<Bone>, calls: seq<BoneCall>)
    requires calls != []
    ensures MadeBones(arm, calls) == MadeBones(arm, calls[..|calls| - 1]) + [MadeBone(arm, calls, |calls| - 1)]
  {
    var front := calls[..|calls| - 1];
    forall k | 0 <= k < |front|
      ensures MadeBone(arm, calls, k) == MadeBone(arm, front, k)
    {
      assert calls[..k] == front[..k];
    }
  }

  /** The last call, made after all earlier calls succeeded, raises exactly when its lookup
      does not resolve, and the bone it adds is the one `MadeBone` describes. */
  lemma LastCallStep(arm: seq<Bone>, calls: seq<BoneCall>)
    requires calls != []
    ensures var made := CreateBoneStrict(arm + MadeBones(arm, calls[..|calls| - 1]), calls[|calls| - 1]);
      && (made.raised.None? <==> CallResolves(arm, calls, |calls| - 1))
      && made.bone == MadeBone(arm, calls, |calls| - 1)
      && (made.raised.Some? ==> made.raised == Some(MissingParent(calls[|calls| - 1].parent.value)))
      && (made.raised.Some? ==> made.bone == Unlinked(calls[|calls| - 1]))
  {
    var n := |calls|;
    var front := calls[..n - 1];
    var last := calls[n - 1];
    var before := arm + MadeBones(arm, front);
    assert calls[..n] == calls;
    assert front == calls[..n - 1];
    assert Names(CallBones(calls)) == Names(CallBones(front)) + [last.name];
    NamesConcat(arm, MadeBones(arm, front));
    assert Names(MadeBones(arm, front)) == Names(CallBones(front));
    assert Names(before) == Names(arm) + Names(CallBones(calls[..n - 1]));
    assert Names(before) + [last.name] == Names(arm) + Names(CallBones(calls[..n]));
  }

  /** The calls all succeed exactly when every lookup resolves, and then each call has
      added the bone `MadeBone` describes. */
  lemma {:induction false} BuildRigOutcome(arm: seq<Bone>, calls: seq<BoneCall>)
    ensures BuildRig(arm, calls).raised.None? <==> CallsResolve(arm, calls)
    ensures BuildRig(arm, calls).raised.None? ==> BuildRig(arm, calls).bones == arm + MadeBones(arm, calls)
  {
    if calls != [] {
      var n := |calls|;
      var front := calls[..n - 1];
      BuildRigOutcome(arm, front);
      forall k | 0 <= k < n - 1
        ensures CallResolves(arm, calls, k) <==> CallResolves(arm, front, k)
      {
        ResolvesInPrefix(arm, calls, k);
      }
      if BuildRig(arm, front).raised.None? {
        LastCallStep(arm, calls);
        MadeBonesFront(arm, calls);
      } else {
        var j :| 0 <= j < n - 1 && !CallResolves(arm, front, j);
        assert !CallResolves(arm, calls, j);
      }
    }
  }

  /** When call `k` is the first whose lookup does not resolve, the run stops there with a
      missing-parent error, and the armature keeps the bones made before call `k` plus the
      bone of call `k` itself, unlinked. */
  lemma {:induction false} BuildRigStops(arm: seq<Bone>, calls: seq<BoneCall>, k: nat)
    requires k < |calls| && !CallResolves(arm, calls, k)
    requires forall j :: 0 <= j < k ==> CallResolves(arm, calls, j)
    ensures BuildRig(arm, calls) == RigRun(arm + MadeBones(arm, calls[..k]) + [Unlinked(calls[k])],
                                           Some(MissingParent(calls[k].parent.value)))
  {
    var n := |calls|;
    var front := calls[..n - 1];
    forall j | 0 <= j < n - 1
      ensures CallResolves(arm, calls, j) <==> CallResolves(arm, front, j)
    {
      ResolvesInPrefix(arm, calls, j);
    }
    if k == n - 1 {
      BuildRigOutcome(arm, front);
      LastCallStep(arm, calls);
    } else {
      BuildRigStops(arm, front, k);
      assert front[..k] == calls[..k];
    }
  }

  /** Index of each call's parent call; -1 for the spine base, which has none. */
  const ParentIndex: seq<int> := [-1, 0, 1, 2, 3, 4, 2, 6, 7, 0, 9, 10, 0, 12, 13]

  /** Only the spine base is created without a parent, and every other call names the
      bone of a strictly earlier call. */
  lemma HumanRigParentLinks()
    ensures |HumanRigCalls| == |ParentIndex| == 15
    ensures HumanRigCalls[0].parent.None? && HumanRigCalls[0].name == "spine_base"
    ensures forall k :: 1 <= k < 15 ==>
      && 0 <= ParentIndex[k] < k
      && HumanRigCalls[k].parent == Some(HumanRigCalls[ParentIndex[k]].name)
      && Given(HumanRigCalls[k].parent)
  {
    UpperParentLinks();
    LowerParentLinks();
  }

  /** The parent links of the spine and the arms. */
  lemma UpperParentLinks()
    ensures forall k :: 1 <= k < 9 ==>
      && 0 <= ParentIndex[k] < k
      && HumanRigCalls[k].parent == Some(HumanRigCalls[ParentIndex[k]].name)
      && Given(HumanRigCalls[k].parent)
  {
  }

  /** The parent links of the legs. */
  lemma LowerParentLinks()
    ensures forall k :: 9 <= k < 15 ==>
      && 0 <= ParentIndex[k] < k
      && HumanRigCalls[k].parent == Some(HumanRigCalls[ParentIndex[k]].name)
      && Given(HumanRigCalls[k].parent)
  {
  }

  /** Creating the human rig never raises, whatever the armature already holds, and it
      appends exactly the fifteen described bones, each linked to its named parent. */
  lemma HumanRigBuilds(initial: seq<Bone>)
    ensures CreateHumanRig(initial).raised.None?
    ensures CreateHumanRig(initial).bones == initial + CallBones(HumanRigCalls)
  {
    forall k | 0 <= k < 15
      ensures CallResolves(initial, HumanRigCalls, k)
      ensures MadeBone(initial, HumanRigCalls, k) == CallBone(HumanRigCalls[k])
    {
      HumanRigCallResolves(initial, k);
    }
    BuildRigOutcome(initial, HumanRigCalls);
  }

  /** Each human rig call finds its parent among the bones of the calls before it. */
  lemma HumanRigCallResolves(initial: seq<Bone>, k: nat)
    requires k < 15
    ensures CallResolves(initial, HumanRigCalls, k)
    ensures MadeBone(initial, HumanRigCalls, k) == CallBone(HumanRigCalls[k])
  {
    HumanRigParentLinks();
    if k > 0 {
      var j := ParentIndex[k];
      EarlierCallName(HumanRigCalls, k, j);
      EarlierCallName(HumanRigCalls, k + 1, j);
    }
  }

  /** The name of call `j` is among the names of the bones of the first `m` calls. */
  lemma EarlierCallName(calls: seq<BoneCall>, m: nat, j: nat)
    requires j < m <= |calls|
    ensures calls[j].name in Names(CallBones(calls[..m]))
  {
    assert Names(CallBones(calls[..m]))[j] == calls[j].name;
  }

  /** A call naming a parent nobody made raises, and the bones made so far stay: the
      armature keeps the first bone and the second one, unlinked. */
  lemma MissingParentExample()
    ensures var first := BoneCall("a", Vec3(0.0, 0.0, 0.0), Vec3(0.0, 0.0, 1.0), None);
      var second := BoneCall("b", Vec3(0.0, 0.0, 1.0), Vec3(0.0, 0.0, 2.0), Some("z"));
      BuildRig([], [first, second])
        == RigRun([Bone("a", Vec3(0.0, 0.0, 0.0), Vec3(0.0, 0.0, 1.0), None),
                   Bone("b", Vec3(0.0, 0.0, 1.0), Vec3(0.0, 0.0, 2.0), None)],
                  Some(MissingParent("z")))
  {
    var first := BoneCall("a", Vec3(0.0, 0.0, 0.0), Vec3(0.0, 0.0, 1.0), None);
    var second := BoneCall("b", Vec3(0.0, 0.0, 1.0), Vec3(0.0, 0.0, 2.0), Some("z"));
    var a := Bone("a", Vec3(0.0, 0.0, 0.0), Vec3(0.0, 0.0, 1.0), None);
    assert [first, second][..1] == [first];
    assert [first][..0] == [];
    assert BuildRig([], [first]) == RigRun([a], None);
    assert Names([a]) == ["a"];
    assert CreateBoneStrict([a], second).raised == Some(MissingParent("z"));
  }

  /** The fifteen bone names are pairwise distinct. */
  lemma HumanRigNamesDistinct()
    ensures DistinctNames(Names(CallBones(HumanRigCalls)))
  {
    HumanRigNameList();
    forall i | 0 <= i < 15
      ensures forall j :: i < j < 15 ==> HumanRigNameOrder[i] != HumanRigNameOrder[j]
    {
      NameDiffersFromLater(i);
    }
  }

  /** Name `i` differs from every later name. */
  lemma NameDiffersFromLater(i: nat)
    requires i < 15
    ensures forall j :: i < j < 15 ==> HumanRigNameOrder[i] != HumanRigNameOrder[j]
  {
  }

  /** The fifteen bone names, in call order. */
  lemma HumanRigNameList()
    ensures Names(CallBones(HumanRigCalls)) == HumanRigNameOrder
  {
    var names := Names(CallBones(HumanRigCalls));
    forall k | 0 <= k < 15
      ensures names[k] == HumanRigNameOrder[k]
    {
    }
  }

  const HumanRigNameOrder: seq<string> := [
    "spine_base", "spine_mid", "spine_top",
    "shoulder.L", "upper_arm.L", "lower_arm.L", "shoulder.R", "upper_arm.R", "lower_arm.R",
    "hip.L", "thigh.L", "shin.L", "hip.R", "thigh.R", "shin.R"]

  /** The fifteen bones, as they end up in the armature. */
  function HumanRigBones(): (r: seq<Bone>)
    ensures |r| == 15
  {
    CallBones(HumanRigCalls)
  }

  /** The spine base is the only bone the rig creates without a parent. */
  lemma HumanRigRoots()
    ensures forall k :: 0 <= k < 15 ==> (HumanRigBones()[k].parent.None? <==> k == 0)
    ensures RootCount(HumanRigBones()) == 1
  {
    HumanRigParentLinks();
    var b := HumanRigBones();
    RootCountIsParentless(b);
    assert (set k | 0 <= k < |b| && b[k].parent.None?) == {0};
  }

  /** The rig is one tree: the spine base is its only root and every other bone's parent
      was created before it; bones already in the armature keep their own roots. */
  lemma HumanRigSingleTree(initial: seq<Bone>)
    requires ParentsEarlier(initial)
    ensures CreateHumanRig(initial).raised.None?
    ensures ParentsEarlier(CreateHumanRig(initial).bones)
    ensures ParentsResolve(CreateHumanRig(initial).bones)
    ensures RootCount(CreateHumanRig(initial).bones) == RootCount(initial) + 1
  {
    HumanRigBuilds(initial);
    HumanRigRoots();
    var b := HumanRigBones();
    RootCountConcat(initial, b);
    HumanRigParentLinks();
    var r := initial + b;
    forall i | 0 <= i < |r| && r[i].parent.Some?
      ensures r[i].parent.value in Names(r[..i])
    {
      if i < |initial| {
        assert r[..i] == initial[..i];
      } else {
        var k := i - |initial|;
        var j := ParentIndex[k];
        assert r[|initial| + j] == b[j];
        assert Names(r[..i])[|initial| + j] == r[|initial| + j].name;
      }
    }
    EarlierParentsResolve(r);
  }

  /** The path of call indices from bone `k` up to the spine base, each step a parent link. */
  function RootPath(k: nat): (p: seq<nat>)
    requires k < 15
    ensures |p| >= 1 && p[0] == k && p[|p| - 1] == 0
    ensures forall i :: 0 <= i < |p| ==> p[i] < 15
    ensures forall i :: 0 <= i < |p| - 1 ==> HumanRigCalls[p[i]].parent == Some(HumanRigCalls[p[i + 1]].name)
    decreases k
  {
    HumanRigParentLinks();
    if k == 0 then [0] else [k] + RootPath(ParentIndex[k])
  }

  /** The four bones whose head does not sit on their parent's tail: each shoulder is offset
      from the spine top, each hip from the spine base. */
  const Breaks: set<string> := {"shoulder.L", "shoulder.R", "hip.L", "hip.R"}

  /** A bone starts where its parent ends, except at the four breaks. */
  lemma HumanRigJoints()
    ensures forall k, j :: 0 <= k < 15 && 0 <= j < 15 && HumanRigCalls[k].parent == Some(HumanRigCalls[j].name) ==>
      (HumanRigCalls[k].head == HumanRigCalls[j].tail <==> HumanRigCalls[k].name !in Breaks)
  {
    HumanRigParentLinks();
    HumanRigNamesDistinct();
    UpperJoints();
    LowerJoints();
    forall k, j | 0 <= k < 15 && 0 <= j < 15 && HumanRigCalls[k].parent == Some(HumanRigCalls[j].name)
      ensures j == ParentIndex[k]
    {
      assert k != 0;
      var p := ParentIndex[k];
      assert Names(CallBones(HumanRigCalls))[j] == Names(CallBones(HumanRigCalls))[p];
    }
  }

  /** The joints of the spine and the arms, each against the parent call it names. */
  lemma UpperJoints()
    ensures forall k :: 1 <= k < 9 ==>
      (HumanRigCalls[k].head == HumanRigCalls[ParentIndex[k]].tail <==> HumanRigCalls[k].name !in Breaks)
  {
  }

  /** The joints of the legs, each against the parent call it names. */
  lemma LowerJoints()
    ensures forall k :: 9 <= k < 15 ==>
      (HumanRigCalls[k].head == HumanRigCalls[ParentIndex[k]].tail <==> HumanRigCalls[k].name !in Breaks)
  {
  }

  /** The suffix swap leaves the spine names alone. */
  lemma SpineSuffixes()
    ensures SwapSuffix("spine_base") == "spine_base"
    ensures SwapSuffix("spine_mid") == "spine_mid"
    ensures SwapSuffix("spine_top") == "spine_top"
  {
    assert "spine_base"[8..] == "se";
    assert "spine_mid"[7..] == "id";
    assert "spine_top"[7..] == "op";
  }

  /** The suffix swap on the left arm names. */
  lemma ArmSuffixes()
    ensures SwapSuffix("shoulder.L") == "shoulder.R"
    ensures SwapSuffix("upper_arm.L") == "upper_arm.R"
    ensures SwapSuffix("lower_arm.L") == "lower_arm.R"
  {
    assert "shoulder.L"[8..] == ".L" && "shoulder.L"[..8] == "shoulder";
    assert "upper_arm.L"[9..] == ".L" && "upper_arm.L"[..9] == "upper_arm";
    assert "lower_arm.L"[9..] == ".L" && "lower_arm.L"[..9] == "lower_arm";
  }

  /** The suffix swap on the left leg names. */
  lemma LegSuffixes()
    ensures SwapSuffix("hip.L") == "hip.R"
    ensures SwapSuffix("thigh.L") == "thigh.R"
    ensures SwapSuffix("shin.L") == "shin.R"
  {
    assert "hip.L"[3..] == ".L" && "hip.L"[..3] == "hip";
    assert "thigh.L"[5..] == ".L" && "thigh.L"[..5] == "thigh";
    assert "shin.L"[4..] == ".L" && "shin.L"[..4] == "shin";
  }

  /** The spine is its own mirror image. */
  lemma SpineMirror()
    ensures forall k :: 0 <= k < 3 ==> MirrorCall(HumanRigCalls[k]) == HumanRigCalls[k]
  {
    SpineSuffixes();
  }

  /** The right arm is the left arm mirrored: suffix `.L` becomes `.R` and y is negated. */
  lemma ArmMirror()
    ensures forall k :: 3 <= k < 6 ==> HumanRigCalls[k + 3] == MirrorCall(HumanRigCalls[k])
  {
    MirrorPair(3);
    MirrorPair(4);
    MirrorPair(5);
  }

  /** The right leg is the left leg mirrored the same way. */
  lemma LegMirror()
    ensures forall k :: 9 <= k < 12 ==> HumanRigCalls[k + 3] == MirrorCall(HumanRigCalls[k])
  {
    MirrorPair(9);
    MirrorPair(10);
    MirrorPair(11);
  }

  /** Call `k + 3` of a side pair is call `k` mirrored. */
  lemma MirrorPair(k: nat)
    requires 3 <= k < 6 || 9 <= k < 12
    ensures HumanRigCalls[k + 3] == MirrorCall(HumanRigCalls[k])
  {
    SpineSuffixes();
    if k < 6 {
      ArmSuffixes();
    } else {
      LegSuffixes();
    }
    MirrorOf(HumanRigCalls[k], HumanRigCalls[k + 3]);
  }

  /** Two calls mirror each other when names, parent names and points all do. */
  lemma MirrorOf(l: BoneCall, r: BoneCall)
    requires r.name == SwapSuffix(l.name)
    requires l.parent.Some? && r.parent == Some(SwapSuffix(l.parent.value))
    requires r.head == MirrorY(l.head) && r.tail == MirrorY(l.tail)
    ensures r == MirrorCall(l)
  {
  }
}

/** Properties of the guide table and of the scene the guides make up. */
module GuideFacts {
  import opened Options
  import opened Vectors
  import opened Scene
  import opened Guides

  /** The table holds twenty pairwise distinct guide names. */
  lemma GuideNamesDistinct()
    ensures |GuideNames()| == 20
    ensures DistinctNames(GuideNames())
  {
    var s, la, ra := RowNames(SpineGuides), RowNames(LeftArmGuides), RowNames(RightArmGuides);
    var ll, rl := RowNames(LeftLegGuides), RowNames(RightLegGuides);
    GuideNamesBlocks();
    BlocksDistinct();
    BlockInitials();
    ArmsApartFromLegs();
    ApartByInitial(s, la, 'C', 'L');
    DistinctJoin(s, la);
    ApartByInitial(s, ra, 'C', 'R');
    ApartByInitial(la, ra, 'L', 'R');
    ApartJoin(s, la, ra);
    DistinctJoin(s + la, ra);
    ApartByInitial(s, ll, 'C', 'L');
    ApartByInitial(ra, ll, 'R', 'L');
    ApartJoin(s, la, ll);
    ApartJoin(s + la, ra, ll);
    DistinctJoin(s + la + ra, ll);
    ApartByInitial(s, rl, 'C', 'R');
    ApartByInitial(la, rl, 'L', 'R');
    ApartByInitial(ll, rl, 'L', 'R');
    ApartJoin(s, la, rl);
    ApartJoin(s + la, ra, rl);
    ApartJoin(s + la + ra, ll, rl);
    DistinctJoin(s + la + ra + ll, rl);
  }

  /** No name of `a` occurs in `b`. */
  predicate Apart(a: seq<string>, b: seq<string>)
  {
    forall i, j :: 0 <= i < |a| && 0 <= j < |b| ==> a[i] != b[j]
  }

  /** Every name of `a` starts with the character `c`. */
  predicate Initial(a: seq<string>, c: char)
  {
    forall i :: 0 <= i < |a| ==> |a[i]| > 0 && a[i][0] == c
  }

  lemma ApartByInitial(a: seq<string>, b: seq<string>, ca: char, cb: char)
    requires Initial(a, ca) && Initial(b, cb) && ca != cb
    ensures Apart(a, b)
  {
    forall i, j | 0 <= i < |a| && 0 <= j < |b|
      ensures a[i] != b[j]
    {
      assert a[i][0] != b[j][0];
    }
  }

  lemma ApartJoin(a: seq<string>, b: seq<string>, c: seq<string>)
    requires Apart(a, c) && Apart(b, c)
    ensures Apart(a + b, c)
  {
    forall i, j | 0 <= i < |a + b| && 0 <= j < |c|
      ensures (a + b)[i] != c[j]
    {
      if i < |a| {
        assert (a + b)[i] == a[i];
      } else {
        assert (a + b)[i] == b[i - |a|];
      }
    }
  }

  lemma DistinctJoin(a: seq<string>, b: seq<string>)
    requires DistinctNames(a) && DistinctNames(b) && Apart(a, b)
    ensures DistinctNames(a + b)
  {
    forall i, j | 0 <= i < j < |a + b|
      ensures (a + b)[i] != (a + b)[j]
    {
      if j < |a| {
        assert (a + b)[i] == a[i] && (a + b)[j] == a[j];
      } else if i < |a| {
        assert (a + b)[i] == a[i] && (a + b)[j] == b[j - |a|];
      } else {
        assert (a + b)[i] == b[i - |a|] && (a + b)[j] == b[j - |a|];
      }
    }
  }

  /** The guide names are the chains' row names, chain after chain. */
  lemma GuideNamesBlocks()
    ensures GuideNames() == RowNames(SpineGuides) + RowNames(LeftArmGuides) + RowNames(RightArmGuides)
                            + RowNames(LeftLegGuides) + RowNames(RightLegGuides)
  {
    var n := GuideNames();
    var b := RowNames(SpineGuides) + RowNames(LeftArmGuides) + RowNames(RightArmGuides)
             + RowNames(LeftLegGuides) + RowNames(RightLegGuides);
    forall i | 0 <= i < 20
      ensures n[i] == b[i]
    {
      var t := GuideTable;
      if i < 4 {
        assert t[i] == SpineGuides[i];
      } else if i < 8 {
        assert t[i] == LeftArmGuides[i - 4];
      } else if i < 12 {
        assert t[i] == RightArmGuides[i - 8];
      } else if i < 16 {
        assert t[i] == LeftLegGuides[i - 12];
      } else {
        assert t[i] == RightLegGuides[i - 16];
      }
    }
  }

  /** Within each chain the four names differ. */
  lemma BlocksDistinct()
    ensures DistinctNames(RowNames(SpineGuides)) && DistinctNames(RowNames(LeftArmGuides))
    ensures DistinctNames(RowNames(RightArmGuides))
    ensures DistinctNames(RowNames(LeftLegGuides)) && DistinctNames(RowNames(RightLegGuides))
  {
  }

  /** Spine names start with `C`, left names with `L`, right names with `R`. */
  lemma BlockInitials()
    ensures Initial(RowNames(SpineGuides), 'C')
    ensures Initial(RowNames(LeftArmGuides), 'L') && Initial(RowNames(LeftLegGuides), 'L')
    ensures Initial(RowNames(RightArmGuides), 'R') && Initial(RowNames(RightLegGuides), 'R')
  {
  }

  /** The arm names of a side differ from its leg names. */
  lemma ArmsApartFromLegs()
    ensures Apart(RowNames(LeftArmGuides), RowNames(LeftLegGuides))
    ensures Apart(RowNames(RightArmGuides), RowNames(RightLegGuides))
  {
  }

  /** The other side's row: side prefix swapped, width fraction negated. */
  function MirrorRow(row: GuideRow): GuideRow
  {
    GuideRow(SwapSide(row.name), -row.widthFraction, row.depth, row.heightFraction)
  }

  /** A mirrored row's offset is the row's offset reflected through the plane x = 0. */
  lemma MirrorRowOffset(row: GuideRow, height: real, width: real)
    ensures Offset(MirrorRow(row), height, width) == MirrorX(Offset(row, height, width))
  {
    assert width * (-row.widthFraction) == -(width * row.widthFraction);
  }

  /** The right arm rows are the left arm rows mirrored, in the same order. */
  lemma ArmRowsMirror()
    ensures |LeftArmGuides| == |RightArmGuides| == 4
    ensures forall k :: 0 <= k < 4 ==> IsSided(LeftArmGuides[k].name) && RightArmGuides[k] == MirrorRow(LeftArmGuides[k])
  {
    assert SwapSide("L_Shoulder_Guide") == "R_Shoulder_Guide";
    assert SwapSide("L_Arm_Guide") == "R_Arm_Guide";
    assert SwapSide("L_Forearm_Guide") == "R_Forearm_Guide";
    assert SwapSide("L_Hand_Guide") == "R_Hand_Guide";
  }

  /** The right leg rows are the left leg rows mirrored, in the same order. */
  lemma LegRowsMirror()
    ensures |LeftLegGuides| == |RightLegGuides| == 4
    ensures forall k :: 0 <= k < 4 ==> IsSided(LeftLegGuides[k].name) && RightLegGuides[k] == MirrorRow(LeftLegGuides[k])
  {
    assert SwapSide("L_Hip_Guide") == "R_Hip_Guide";
    assert SwapSide("L_Thigh_Guide") == "R_Thigh_Guide";
    assert SwapSide("L_Shin_Guide") == "R_Shin_Guide";
    assert SwapSide("L_Foot_Guide") == "R_Foot_Guide";
  }

  /** The table position of a guide's other-side counterpart: arm and leg chains are
      listed left then right, four guides each. */
  function Counterpart(i: nat): nat
  {
    if 4 <= i < 8 || 12 <= i < 16 then i + 4
    else if 8 <= i < 12 || 16 <= i < 20 then i - 4
    else i
  }

  lemma SwapSideInvolutive(name: string)
    ensures SwapSide(SwapSide(name)) == name
  {
  }

  /** Row by row, the table pairs each sided guide with its mirror at `Counterpart`. */
  lemma RowMirrorAt(i: nat)
    requires i < 20
    ensures Counterpart(i) < 20
    ensures IsSided(GuideTable[i].name) <==> Counterpart(i) != i
    ensures IsSided(GuideTable[i].name) ==> GuideTable[Counterpart(i)] == MirrorRow(GuideTable[i])
    ensures !IsSided(GuideTable[i].name) ==> GuideTable[i].widthFraction == 0.0
  {
    ArmRowsMirror();
    LegRowsMirror();
    var t := GuideTable;
    if i < 4 {
      assert t[i] == SpineGuides[i];
    } else if i < 8 {
      assert t[i] == LeftArmGuides[i - 4] && t[i + 4] == RightArmGuides[i - 4];
    } else if i < 12 {
      assert t[i] == RightArmGuides[i - 8] && t[i - 4] == LeftArmGuides[i - 8];
      SwapSideInvolutive(LeftArmGuides[i - 8].name);
    } else if i < 16 {
      assert t[i] == LeftLegGuides[i - 12] && t[i + 4] == RightLegGuides[i - 12];
    } else {
      assert t[i] == RightLegGuides[i - 16] && t[i - 4] == LeftLegGuides[i - 16];
      SwapSideInvolutive(LeftLegGuides[i - 16].name);
    }
  }

  /** Left and right guides mirror each other through the plane x = 0 about the mesh's
      location: every sided guide has a guide of the other side, and that guide's offset
      has the same y and z and the negated x. Centre guides lie on that plane. */
  lemma GuideTableMirror(height: real, width: real)
    ensures forall i :: 0 <= i < 20 && IsSided(GuideNames()[i]) ==> SwapSide(GuideNames()[i]) in GuideNames()
    ensures forall i, j ::
      0 <= i < 20 && 0 <= j < 20 && IsSided(GuideNames()[i]) && GuideNames()[j] == SwapSide(GuideNames()[i])
      ==> Offset(GuideTable[j], height, width) == MirrorX(Offset(GuideTable[i], height, width))
    ensures forall i :: 0 <= i < 20 && !IsSided(GuideNames()[i]) ==> Offset(GuideTable[i], height, width).x == 0.0
  {
    GuideNamesDistinct();
    forall i | 0 <= i < 20
      ensures IsSided(GuideNames()[i]) ==> SwapSide(GuideNames()[i]) in GuideNames()
      ensures !IsSided(GuideNames()[i]) ==> Offset(GuideTable[i], height, width).x == 0.0
    {
      RowMirrorAt(i);
      if IsSided(GuideNames()[i]) {
        assert GuideNames()[Counterpart(i)] == SwapSide(GuideNames()[i]);
      }
    }
    forall i, j | 0 <= i < 20 && 0 <= j < 20 && IsSided(GuideNames()[i]) && GuideNames()[j] == SwapSide(GuideNames()[i])
      ensures Offset(GuideTable[j], height, width) == MirrorX(Offset(GuideTable[i], height, width))
    {
      RowMirrorAt(i);
      MirrorRowOffset(GuideTable[i], height, width);
      assert GuideNames()[Counterpart(i)] == GuideNames()[j];
    }
  }

  lemma ScaleFraction(k: real, a: real, c: real)
    ensures (k * a) * c == k * (a * c)
  {
  }

  /** Offsets scale linearly with the mesh's height and width in x and z; y does not scale. */
  lemma GuideOffsetsScale(height: real, width: real, k: real)
    ensures forall i :: 0 <= i < |GuideTable| ==>
      var o := Offset(GuideTable[i], height, width);
      Offset(GuideTable[i], k * height, k * width) == Vec3(k * o.x, o.y, k * o.z)
  {
    forall i | 0 <= i < |GuideTable|
      ensures var o := Offset(GuideTable[i], height, width);
        Offset(GuideTable[i], k * height, k * width) == Vec3(k * o.x, o.y, k * o.z)
    {
      RowOffsetScale(GuideTable[i], height, width, k);
    }
  }

  /** One row's offset scales in x and z with the mesh and keeps its depth. */
  lemma RowOffsetScale(row: GuideRow, height: real, width: real, k: real)
    ensures var o := Offset(row, height, width);
      Offset(row, k * height, k * width) == Vec3(k * o.x, o.y, k * o.z)
  {
    ScaleFraction(k, width, row.widthFraction);
    ScaleFraction(k, height, row.heightFraction);
  }

  /** Every guide sits at y = 0 except the two feet, which sit 0.1 forward whatever the
      mesh's size, so a zero-size mesh does not collapse them onto its location. */
  lemma GuideFeetForward(height: real, width: real)
    ensures forall i :: 0 <= i < 20 ==>
      Offset(GuideTable[i], height, width).y
        == if GuideNames()[i] == "L_Foot_Guide" || GuideNames()[i] == "R_Foot_Guide" then 0.1 else 0.0
  {
    GuideNamesDistinct();
  }

  /** A mesh 3 high and 2 wide at the origin: the second spine guide sits at (0, 0, 0.6)
      and the left shoulder guide at (0.4, 0, 2.4). */
  lemma GuidePlacementExample(mesh: SceneObject)
    requires mesh.kind == MeshType
    ensures CreateGuides(Some(mesh), 3.0, 2.0, Vec3(0.0, 0.0, 0.0)).GuidesFinished?
    ensures CreateGuides(Some(mesh), 3.0, 2.0, Vec3(0.0, 0.0, 0.0)).guides[1].name == "C_Spine_01_Guide"
    ensures CreateGuides(Some(mesh), 3.0, 2.0, Vec3(0.0, 0.0, 0.0)).guides[1].location == Vec3(0.0, 0.0, 0.6)
    ensures CreateGuides(Some(mesh), 3.0, 2.0, Vec3(0.0, 0.0, 0.0)).guides[4].name == "L_Shoulder_Guide"
    ensures CreateGuides(Some(mesh), 3.0, 2.0, Vec3(0.0, 0.0, 0.0)).guides[4].location == Vec3(0.4, 0.0, 2.4)
  {
    var spine, shoulder := SpineGuides[1], LeftArmGuides[0];
    assert GuideTable[1] == spine && GuideTable[4] == shoulder;
    assert spine.widthFraction == 0.0 && spine.depth == 0.0 && spine.heightFraction == 0.2;
    assert shoulder.widthFraction == 0.2 && shoulder.depth == 0.0 && shoulder.heightFraction == 0.8;
    assert Offset(spine, 3.0, 2.0) == Vec3(0.0, 0.0, 0.6);
    assert Offset(shoulder, 3.0, 2.0) == Vec3(0.4, 0.0, 2.4);
  }

  /** Once the guides exist, looking a guide up by name in the scene gives back the location
      it was created at, provided no two guides share a name. */
  lemma {:induction false} GuideSceneLookup(guides: seq<Guide>)
    requires forall i, j :: 0 <= i < j < |guides| ==> guides[i].name != guides[j].name
    ensures forall i :: 0 <= i < |guides| ==> GuideScene(guides)[guides[i].name] == guides[i].location
  {
    if guides != [] {
      var prefix := guides[..|guides| - 1];
      GuideSceneLookup(prefix);
      forall i | 0 <= i < |guides|
        ensures GuideScene(guides)[guides[i].name] == guides[i].location
      {
        if i < |guides| - 1 {
          assert prefix[i] == guides[i];
        }
      }
    }
  }

  /** The scene the operator leaves holds exactly the table's guides, each at the mesh's
      location plus its offset. */
  lemma CreatedGuidesScene(active: Option<SceneObject>, height: real, width: real, center: Vec3)
    requires active.Some? && active.value.kind == MeshType
    ensures CreateGuides(active, height, width, center).GuidesFinished?
    ensures forall n :: n in GuideScene(CreateGuides(active, height, width, center).guides) <==> n in GuideNames()
    ensures forall i :: 0 <= i < 20 ==>
      GuideScene(CreateGuides(active, height, width, center).guides)[GuideNames()[i]]
        == Add(Offset(GuideTable[i], height, width), center)
  {
    var guides := CreateGuides(active, height, width, center).guides;
    GuideNamesDistinct();
    GuideSceneLookup(guides);
    forall n ensures n in GuideScene(guides) <==> n in GuideNames() {
      if n in GuideNames() {
        var i :| 0 <= i < |GuideNames()| && GuideNames()[i] == n;
        assert guides[i].name == n;
      }
    }
  }
}

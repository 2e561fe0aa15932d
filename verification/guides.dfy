/** Guide placement: the create-guides operator and its fixed table of proportional offsets. */
module Guides {
  import opened Options
  import opened Vectors
  import opened Scene

  /** A guide object as the operator leaves it: a cube of the given size at `location`,
      tagged with the two custom attributes and snapped to `snapTarget`'s surface. */
  datatype Guide = Guide(
    name: string,
    location: Vec3,
    size: real,
    bendyJoints: int,
    stretchable: bool,
    snapTarget: string)

  datatype GuidesOutcome = GuidesCancelled | GuidesFinished(guides: seq<Guide>)

  /** The cube size the guide factory uses when none is passed. */
  const DefaultGuideSize: real := 0.1

  /** One row of the guide table: the guide's name and its offset from the mesh's location,
      given as a fraction of the mesh's width (x), a fixed depth (y) and a fraction of the
      mesh's height (z). */
  datatype GuideRow = GuideRow(name: string, widthFraction: real, depth: real, heightFraction: real)

  /** Guide table rows of the spine chain. */
  const SpineGuides: seq<GuideRow> := [
    GuideRow("C_Root_Guide", 0.0, 0.0, 0.0),
    GuideRow("C_Spine_01_Guide", 0.0, 0.0, 0.2),
    GuideRow("C_Spine_02_Guide", 0.0, 0.0, 0.4),
    GuideRow("C_Spine_03_Guide", 0.0, 0.0, 0.6)
  ]

  /** Guide table rows of the left arm chain. */
  const LeftArmGuides: seq<GuideRow> := [
    GuideRow("L_Shoulder_Guide", 0.2, 0.0, 0.8),
    GuideRow("L_Arm_Guide", 0.4, 0.0, 0.75),
    GuideRow("L_Forearm_Guide", 0.6, 0.0, 0.65),
    GuideRow("L_Hand_Guide", 0.8, 0.0, 0.6)
  ]

  /** Guide table rows of the right arm chain (mirrored). */
  const RightArmGuides: seq<GuideRow> := [
    GuideRow("R_Shoulder_Guide", -0.2, 0.0, 0.8),
    GuideRow("R_Arm_Guide", -0.4, 0.0, 0.75),
    GuideRow("R_Forearm_Guide", -0.6, 0.0, 0.65),
    GuideRow("R_Hand_Guide", -0.8, 0.0, 0.6)
  ]

  /** Guide table rows of the left leg chain. */
  const LeftLegGuides: seq<GuideRow> := [
    GuideRow("L_Hip_Guide", 0.1, 0.0, 0.35),
    GuideRow("L_Thigh_Guide", 0.15, 0.0, 0.25),
    GuideRow("L_Shin_Guide", 0.15, 0.0, 0.1),
    GuideRow("L_Foot_Guide", 0.15, 0.1, 0.0)
  ]

  /** Guide table rows of the right leg chain (mirrored). */
  const RightLegGuides: seq<GuideRow> := [
    GuideRow("R_Hip_Guide", -0.1, 0.0, 0.35),
    GuideRow("R_Thigh_Guide", -0.15, 0.0, 0.25),
    GuideRow("R_Shin_Guide", -0.15, 0.0, 0.1),
    GuideRow("R_Foot_Guide", -0.15, 0.1, 0.0)
  ]

  /** The guide table, in creation order. */
  const GuideTable: seq<GuideRow> := SpineGuides + LeftArmGuides + RightArmGuides + LeftLegGuides + RightLegGuides

  /** The names of some table rows, in order. */
  function RowNames(rows: seq<GuideRow>): (r: seq<string>)
    ensures |r| == |rows|
    ensures forall k :: 0 <= k < |rows| ==> r[k] == rows[k].name
  {
    seq(|rows|, k requires 0 <= k < |rows| => rows[k].name)
  }

  /** The guide names, in creation order. */
  function GuideNames(): (r: seq<string>)
  {
    RowNames(GuideTable)
  }

  /** A row's offset for a mesh of the given height and width. */
  function Offset(row: GuideRow, height: real, width: real): Vec3
  {
    Vec3(width * row.widthFraction, row.depth, height * row.heightFraction)
  }

  /** The operator: cancelled unless the active object is a mesh; otherwise one guide per
      table row, placed at the mesh's location plus the row's offset. */
  function CreateGuides(active: Option<SceneObject>, height: real, width: real, center: Vec3): (r: GuidesOutcome)
    ensures r.GuidesCancelled? <==> active.None? || active.value.kind != MeshType
    ensures r.GuidesFinished? ==> |r.guides| == |GuideNames()| == 20
    ensures r.GuidesFinished? ==> forall i :: 0 <= i < |r.guides| ==>
      && r.guides[i].name == GuideNames()[i]
      && Sub(r.guides[i].location, center) == Offset(GuideTable[i], height, width)
      && r.guides[i].size == DefaultGuideSize
      && r.guides[i].snapTarget == active.value.name
  {
    if active.None? || active.value.kind != MeshType then GuidesCancelled
    else
      GuidesFinished(seq(|GuideTable|, i requires 0 <= i < |GuideTable| =>
        var row := GuideTable[i];
        Guide(row.name, Add(Offset(row, height, width), center), DefaultGuideSize, 2, false, active.value.name)))
  }

  /** The name lookup over the file's objects after the guides are created, taking the new
      guides as the only objects that carry guide-table names. The table's names are distinct,
      so each name is held by one guide; for a repeated name the model lets the later guide
      win, a case the table never reaches. */
  function GuideScene(guides: seq<Guide>): (m: Locations)
    ensures forall n :: n in m <==> exists i :: 0 <= i < |guides| && guides[i].name == n
  {
    if guides == [] then map[]
    else
      var prefix := guides[..|guides| - 1];
      var m := GuideScene(prefix);
      assert forall i :: 0 <= i < |prefix| ==> prefix[i] == guides[i];
      m[guides[|guides| - 1].name := guides[|guides| - 1].location]
  }

  /** Swaps the side prefix of a guide name: `L_x` and `R_x` exchange, others stay. */
  function SwapSide(name: string): (r: string)
  {
    if |name| > 0 && name[0] == 'L' then name[0 := 'R']
    else if |name| > 0 && name[0] == 'R' then name[0 := 'L']
    else name
  }

  predicate IsSided(name: string)
  {
    |name| > 0 && (name[0] == 'L' || name[0] == 'R')
  }
}

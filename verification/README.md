# Auto-rigger core, modelled in Dafny

This project models the pure logic inside two Blender rigging operators. All host calls are replaced by plain values.

- **The auto-rigger** (`tools/operators/auto_rigger.py`)
  - *Create guides* checks that the active object is a mesh. It then places twenty named guide objects at the mesh's location plus fixed fractions of its bounding-box height and width.
  - *Generate rig* walks five chains of guide names (spine, arms, legs). It turns every guide that exists into a bone:
    - the head is the guide's location;
    - the tail is the next guide's location, or the head raised by 0.1;
    - the parent is the bone created just before it in the chain.
  - *Bind mesh* scans every object in the file (`bpy.data.objects`) for the selected mesh and the armature named `AutoRig`.
- **The human rig** (`tools/operators/create_armature.py`) makes fifteen fixed bone-creation calls. Its bone factory looks the parent name up without checking that it exists.

The model is functional:
- 3-vectors over `real` stand in for the host's float vectors.
- The name lookup over every object in the file (`bpy.data.objects`) is a finite map from guide name to location.
- An armature is the sequence of its bones in creation order; a bone records its parent by name.
- The operators are functions from these values to an outcome. The bind scan is a method with a loop.

Modules:
- `Options`: `Option`.
- `Vectors`: `Vec3`, addition, mirroring.
- `Scene`: object records and name lookup.
- `Armature`: bones, parent predicates, root counting.
- `Guides` and `GuideFacts`: create guides.
- `RigGeneration`, `ChainFacts` and `RigFacts`: the bone factory, the chain walk, the chain table and generate rig.
- `MeshBinding`: bind mesh.
- `HumanRig` and `HumanRigFacts`: the human rig.

Where the code and its documentation disagree, the model follows the code:
- A guide missing in the middle of a chain does not break the parent links. The next bone found is parented to the last bone actually created. The bone before the gap gets the 0.1 stub tail, because its next listed guide is missing (`ChainFacts.MissingMiddleGuideExample`).
- The feet guides' depth (y = 0.1) is absolute. It does not scale with the mesh and does not collapse for a flat mesh. All other offsets scale linearly (`GuideFacts.GuideOffsetsScale`, `GuideFacts.GuideFeetForward`).
- Create guides always uses the factory's default guide size 0.1, not the guide-size setting.
- Both bone factories add the new bone before looking up the parent. A parent name equal to the new bone's own name is therefore found, so the strict factory does not raise. The host refuses a bone as its own parent, so that bone stays parentless.
- The strict factory raises after the new bone exists, and nothing is rolled back. A missing parent stops the human rig with the earlier bones and the new, unparented bone left in the armature (`HumanRigFacts.BuildRigStops`, `HumanRigFacts.MissingParentExample`).

## Model

| member | source | states |
|---|---|---|
| Guides.CreateGuides | tools/operators/auto_rigger.py:90-142 | Cancelled exactly when there is no active object or it is not a mesh. Otherwise it yields twenty guides. Guide i carries the table's i-th name, sits at the mesh location plus that row's offset, has size 0.1 and snaps to the mesh. |
| Guides.GuideScene | tools/operators/auto_rigger.py:150-152 | After the guides are created, a name resolves exactly when some created guide has that name. |
| GuideFacts.GuideNamesDistinct | tools/operators/auto_rigger.py:103-133 | The guide table holds twenty pairwise distinct names. |
| GuideFacts.MirrorRowOffset | tools/operators/auto_rigger.py:117-120 | A row mirrored to the other side has its offset reflected through x = 0, for every height and width. |
| GuideFacts.ArmRowsMirror | tools/operators/auto_rigger.py:111-120 | Each right-arm row is the left-arm row at the same position, with the side prefix swapped and the width fraction negated. |
| GuideFacts.LegRowsMirror | tools/operators/auto_rigger.py:123-132 | Each right-leg row is the left-leg row at the same position, with the side prefix swapped and the width fraction negated. |
| GuideFacts.RowMirrorAt | tools/operators/auto_rigger.py:103-133 | A row has a distinct counterpart exactly when its name is sided. That counterpart is its mirror. Unsided (spine) rows lie on x = 0. |
| GuideFacts.GuideTableMirror | tools/operators/auto_rigger.py:103-133 | Every L_/R_ guide has its swapped-side name in the table. The two offsets have equal y and z and negated x. Centre guides have x offset 0. |
| GuideFacts.GuideOffsetsScale | tools/operators/auto_rigger.py:99-132 | Scaling height and width by k scales every offset's x and z by k. The y offset stays unchanged. |
| GuideFacts.GuideFeetForward | tools/operators/auto_rigger.py:126-132 | Only the two feet guides have a non-zero y offset, and it is exactly 0.1. |
| GuideFacts.GuidePlacementExample | tools/operators/auto_rigger.py:105-111 | For a 3-high, 2-wide mesh at the origin, the second spine guide is at (0, 0, 0.6) and the left shoulder is at (0.4, 0, 2.4). |
| GuideFacts.GuideSceneLookup | tools/operators/auto_rigger.py:150-152 | When guide names are distinct, looking a guide's name up gives that guide's location. |
| GuideFacts.CreatedGuidesScene | tools/operators/auto_rigger.py:135-136 | After creating guides on a mesh, exactly the twenty table names resolve. Each maps to the mesh location plus its row's offset. |
| RigGeneration.CreateBone | tools/operators/auto_rigger.py:15-23 | The bone gets the given name, head and tail. It gets a parent exactly when a non-empty parent name is given that some earlier bone of the armature carries, and then it is that name. A name held only by the new bone makes no link. |
| RigGeneration.ZipLength | tools/operators/auto_rigger.py:157 | The walk visits as many pairs as the shorter of the guide and bone lists. |
| RigGeneration.PresentIndices | tools/operators/auto_rigger.py:157-160 | The positions the walk keeps are visited positions whose guide exists. |
| RigGeneration.BuildChains | tools/operators/auto_rigger.py:209-211 | Walking a list of chains only appends bones. The bones already in the armature stay in place. |
| RigGeneration.GenerateRig | tools/operators/auto_rigger.py:181-215 | Generating the rig only appends bones to the armature it creates. |
| ChainFacts.ChainUpToMatches | tools/operators/auto_rigger.py:156-178 | The walk over the first n pairs equals the reference chain. The reference makes one bone per present guide, each parented to the previous one. |
| ChainFacts.CreateBoneChainMatchesReference | tools/operators/auto_rigger.py:154-179 | The chain a walk returns is the reference chain over all visited pairs. |
| ChainFacts.PresentIndicesExact | tools/operators/auto_rigger.py:157-160 | The kept positions are strictly ascending. A position is kept exactly when it is visited and its guide exists. |
| ChainFacts.ReferenceBonesAt | tools/operators/auto_rigger.py:162-177 | The k-th reference bone is named from its pair, headed at its guide and tailed by the tail rule. It is parented to the (k-1)-th bone, and the first has no parent. |
| ChainFacts.ChainBonesFollowPresentGuides | tools/operators/auto_rigger.py:157-178 | A chain has one bone per present guide, in chain order. Each is named after its pair, and absent guides contribute nothing. |
| ChainFacts.ChainHeadsAndTails | tools/operators/auto_rigger.py:162-168 | Each head is its guide's location. The tail is the next listed guide's location when that guide exists, else the head plus (0, 0, 0.1), the last guide included. |
| ChainFacts.ChainParents | tools/operators/auto_rigger.py:170-177 | The first created bone has no parent. Every later bone is parented to the previously created bone, not the previous index. |
| ChainFacts.PresentIndicesAll | tools/operators/auto_rigger.py:157-160 | When every guide exists, the kept positions are 0 .. n-1. |
| ChainFacts.ChainAllPresent | tools/operators/auto_rigger.py:157-178 | With every guide present, each visited pair yields its bone in order, and each tail is the next bone's head. When the lists have equal length, the last tail is the head plus 0.1. |
| ChainFacts.ChainKeepsParentsEarlier | tools/operators/auto_rigger.py:170-177 | A chain walk keeps the property that every parent link names an earlier bone. |
| Armature.EarlierParentsResolve | tools/operators/auto_rigger.py:21-22 | If every parent names an earlier bone, every parent names a bone of the armature. |
| ChainFacts.ChainRoots | tools/operators/auto_rigger.py:157-177 | When every visited pair whose guide exists has a non-empty bone name, a chain adds exactly one parentless bone if any of its visited guides exists, and none otherwise. |
| ChainFacts.MissingMiddleGuideExample | tools/operators/auto_rigger.py:158-177 | With guides a, c present and b absent, the walk makes A then C. Both get stub tails, and C is parented to A. |
| RigFacts.ChainTableMatchesGuideTable | tools/operators/auto_rigger.py:186-207 | Five chains with four guides and four bones each, so zip drops nothing. Guide i of chain j is the guide table's row 4j+i, and every bone name is non-empty. |
| RigFacts.ChainLaysOut | tools/operators/auto_rigger.py:154-179 | A four-guide chain whose guides all exist yields exactly its four planned bones. Heads are at the guides, tails at the next guide (stub for the last), and parents link to the previous bone. |
| RigFacts.BuildChainsAllPresent | tools/operators/auto_rigger.py:209-211 | With all guides present, each chain contributes four bones, laid out in table order. |
| RigFacts.BuildChainsRoots | tools/operators/auto_rigger.py:209-211 | When every chain has four guides that all exist and four non-empty bone names, each chain adds exactly one parentless bone. |
| RigFacts.BuildChainsRootCount | tools/operators/auto_rigger.py:209-211 | For any scene, when every visited guide that exists has a non-empty bone name, the walk adds one parentless bone per chain with a guide in the scene, and none for a chain without. |
| RigFacts.GenerateRigRoots | tools/operators/auto_rigger.py:181-215 | For any scene, generate rig adds one root per table chain that has a guide in the scene, so at most five. Parent links keep pointing at earlier bones. |
| RigFacts.BuildChainsKeepsParentsEarlier | tools/operators/auto_rigger.py:209-211 | The chains keep every parent link pointing at an earlier bone. |
| RigFacts.BuildChainsBones | tools/operators/auto_rigger.py:209-211 | When every chain has four guides that all exist and four non-empty bone names, bone i of chain j sits at slot 4j+i after the initial bones. It carries the chain's i-th bone name and is headed at the chain's i-th guide. |
| RigFacts.BuildChainsHeadsAtGuides | tools/operators/auto_rigger.py:162 | When chain guides resolve to a list of placed guides, bone i of chain j is headed at placed guide 4j+i. |
| RigFacts.CreatedGuidesCoverChains | tools/operators/auto_rigger.py:186-207 | Every guide the chain table names exists after create guides. It resolves to the location of the created guide in the same slot. |
| RigFacts.CreatedGuidesLookup | tools/operators/auto_rigger.py:135-136 | Created guide k has the table's k-th name. That name resolves to guide k's location. |
| RigFacts.GenerateRigFromGuides | tools/operators/auto_rigger.py:181-211 | After create guides on a mesh, with no earlier object carrying a guide-table name, generate rig adds twenty edit bones, as the armature stands before the switch back to object mode. Bone 4j+i is named from the chain table and headed at guide 4j+i. The rig has exactly five new roots. Parents still point earlier, so every parent link names a bone of the armature. |
| MeshBinding.BindMesh | tools/operators/auto_rigger.py:223-235 | Cancelled exactly when the scan finds no selected mesh or no armature named AutoRig. Otherwise it binds the last selected mesh and the last such armature. |
| MeshBinding.LastMesh | tools/operators/auto_rigger.py:227-229 | The mesh the scan keeps, when there is one, is a selected mesh from the objects. |
| MeshBinding.LastRig | tools/operators/auto_rigger.py:227-231 | The armature the scan keeps, when there is one, is an object of the scene that is an armature named AutoRig. |
| MeshBinding.LastMeshMeans | tools/operators/auto_rigger.py:227-235 | There is no kept mesh exactly when no object is a selected mesh. Otherwise the kept mesh is the object at a position after which no selected mesh follows. |
| MeshBinding.LastRigMeans | tools/operators/auto_rigger.py:227-235 | There is no kept rig exactly when no object is an armature named AutoRig. Otherwise the kept rig is the object at a position after which no such armature follows. |
| HumanRig.CreateBoneStrict | tools/operators/create_armature.py:15-22 | The bone is always added, with the given name, head and tail. A missing-parent error is raised exactly when a non-empty parent name is neither in the armature nor the bone's own name. The bone gets a parent exactly when a non-empty parent name is already in the armature, and then it is that name. |
| HumanRig.BuildRig | tools/operators/create_armature.py:50-75 | A run of calls keeps the bones already there and appends at most one bone per call. A run that raises nothing appends exactly one bone per call. |
| HumanRig.CreateHumanRig | tools/operators/create_armature.py:40-80 | A successful human rig appends fifteen bones to the armature. |
| HumanRigFacts.BuildRigOutcome | tools/operators/create_armature.py:15-22 | A run raises exactly when some parent lookup does not resolve at its call. Without a raise, each call has appended its bone, linked when an earlier bone carries the parent name. |
| HumanRigFacts.BuildRigStops | tools/operators/create_armature.py:15-22 | When call k is the first whose lookup does not resolve, the run raises a missing-parent error naming that parent. The armature keeps the bones made before call k plus call k's own bone, unparented. |
| HumanRigFacts.MissingParentExample | tools/operators/create_armature.py:15-22 | Calls making bone a, then bone b with missing parent z, leave both bones (b unparented) and raise a missing-parent error for z. |
| HumanRigFacts.HumanRigParentLinks | tools/operators/create_armature.py:51-75 | Only spine_base is created without a parent. Every other call names the bone of a strictly earlier call. |
| HumanRigFacts.HumanRigBuilds | tools/operators/create_armature.py:51-75 | The unchecked parent lookup never fails, whatever the armature already holds. The result is the fifteen described bones appended. |
| HumanRigFacts.HumanRigNamesDistinct | tools/operators/create_armature.py:51-75 | The fifteen bone names are pairwise distinct. |
| HumanRigFacts.HumanRigRoots | tools/operators/create_armature.py:51-75 | Bone k is parentless exactly when k = 0 (spine_base), so the rig has exactly one root and fourteen parented bones. |
| HumanRigFacts.HumanRigSingleTree | tools/operators/create_armature.py:51-75 | Given an initial armature whose parent links all point at earlier bones (a fresh armature's single default bone qualifies), the rig always builds. Every parent link points to an earlier bone and names a bone of the armature, and it adds exactly one root. |
| HumanRigFacts.RootPath | tools/operators/create_armature.py:51-75 | From every bone, a chain of parent links leads to spine_base. |
| HumanRigFacts.HumanRigJoints | tools/operators/create_armature.py:51-75 | A bone's head equals its parent's tail exactly when it is not one of shoulder.L/R and hip.L/R. |
| HumanRigFacts.SpineMirror | tools/operators/create_armature.py:51-53 | The spine calls are their own mirror image through y = 0. |
| HumanRigFacts.ArmMirror | tools/operators/create_armature.py:57-64 | Each right-arm call is its left counterpart with .L renamed .R in its name and parent, and y negated in head and tail. The shoulders keep parent spine_top. |
| HumanRigFacts.LegMirror | tools/operators/create_armature.py:68-75 | Each right-leg call is its left counterpart with .L renamed .R in its name and parent, and y negated in head and tail. The hips keep parent spine_base. |

## Left out

- Host operators (`armature_add`, `mode_set`, `primitive_cube_add`, `select_all`, `select_by_type`, `delete`, `parent_set`, `parent_clear`, `select_set`): their effects are not visible in the code. The armature the rig starts from is the `initial` parameter, which covers the default bone `armature_add` creates.
- Bounding-box extraction: the mesh's height, width and location are inputs, because `bound_box` is host data.
- The shrinkwrap constraint: it moves the guide's evaluated position, not its `location`, so bones are modelled as headed at the table positions. The surface snap itself is host geometry.
- Automatic weights: skinning is computed by the host.
- The deletion of existing armatures before the human rig is built: it is a host operator sequence.
- Blender's renaming of duplicate names (a second `AutoRig` becoming `AutoRig.001`, a clashing bone name getting a suffix): it is host behaviour. Names are kept as given, and lookups find whichever bone carries the name.
- Objects that exist before create guides: the lookup after create guides holds only the twenty new guides. The end-to-end lemmas (`RigFacts.CreatedGuidesCoverChains`, `RigFacts.CreatedGuidesLookup`, `RigFacts.GenerateRigFromGuides`) therefore assume that no earlier object in the file carries a guide-table name. When one does (for example after a second run of create guides), the host names the new guide with a suffix such as `C_Root_Guide.001`, and generate rig reads the earlier object's location instead. `RigFacts.GenerateRigRoots` and the chain lemmas hold for any lookup, so they cover that case too.
- MeshBinding.BindMesh: reports `Bound` even when the kept armature is not in the current view layer (an `AutoRig` in another scene of the file). The host's `select_set` then fails on it; view layers are host state.
- Guide custom properties: only the constants the factory sets are recorded.
- The property group, the panels, registration, the error reports and `clear_binding`: these are UI or a one-line guard around a host operator. No rig logic reads the properties.
- The switch back to object mode at the end of generate rig (`auto_rigger.py:214`): the host then deletes edit bones of zero length. The model is the edit-bone state before that switch. For a mesh of height 0, five bones have head equal to tail (`C_Root_Bone`, `C_Spine_01_Bone`, `C_Spine_02_Bone`, `L_Thigh_Bone`, `R_Thigh_Bone`), and the host would drop them.
- IEEE float rounding: coordinates are `real`, and every stated property is linear, so it holds exactly over the reals.

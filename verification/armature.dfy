/** Bones and the armature-wide facts both rig builders are stated with. */
module Armature {
  import opened Options
  import opened Vectors

  /** An edit bone: its name, head and tail positions, and its parent bone's name. */
  datatype Bone = Bone(name: string, head: Vec3, tail: Vec3, parent: Option<string>)

  /** The names of an armature's bones, in creation order. */
  function Names(bones: seq<Bone>): (r: seq<string>)
    ensures |r| == |bones|
    ensures forall i :: 0 <= i < |bones| ==> r[i] == bones[i].name
  {
    seq(|bones|, i requires 0 <= i < |bones| => bones[i].name)
  }

  lemma NamesConcat(a: seq<Bone>, b: seq<Bone>)
    ensures Names(a + b) == Names(a) + Names(b)
  {
  }

  /** Python truthiness of an optional bone name: `None` and `""` are both false. */
  predicate Given(parent: Option<string>)
  {
    parent.Some? && parent.value != ""
  }

  /** Every parent link names a bone of the armature. */
  predicate ParentsResolve(bones: seq<Bone>)
  {
    forall i :: 0 <= i < |bones| && bones[i].parent.Some? ==> bones[i].parent.value in Names(bones)
  }

  /** Every parent link names a bone created strictly earlier. */
  predicate ParentsEarlier(bones: seq<Bone>)
  {
    forall i :: 0 <= i < |bones| && bones[i].parent.Some? ==> bones[i].parent.value in Names(bones[..i])
  }

  /** Links that name earlier bones name bones of the armature. */
  lemma EarlierParentsResolve(bones: seq<Bone>)
    requires ParentsEarlier(bones)
    ensures ParentsResolve(bones)
  {
    forall i | 0 <= i < |bones| && bones[i].parent.Some?
      ensures bones[i].parent.value in Names(bones)
    {
      var j :| 0 <= j < i && Names(bones[..i])[j] == bones[i].parent.value;
      assert Names(bones)[j] == bones[j].name == bones[..i][j].name;
    }
  }

  /** Number of bones without a parent. */
  function RootCount(bones: seq<Bone>): (n: nat)
    ensures n <= |bones|
  {
    if bones == [] then 0
    else RootCount(bones[..|bones| - 1]) + (if bones[|bones| - 1].parent.None? then 1 else 0)
  }

  /** Root counting distributes over concatenation. */
  lemma {:induction false} RootCountConcat(a: seq<Bone>, b: seq<Bone>)
    ensures RootCount(a + b) == RootCount(a) + RootCount(b)
  {
    if b == [] {
      assert a + b == a;
    } else {
      var b' := b[..|b| - 1];
      RootCountConcat(a, b');
      assert (a + b)[..|a + b| - 1] == a + b';
      assert (a + b)[|a + b| - 1] == b[|b| - 1];
    }
  }

  /** The root count is the number of bones whose parent is absent. */
  lemma {:induction false} RootCountIsParentless(bones: seq<Bone>)
    ensures RootCount(bones) == |set k | 0 <= k < |bones| && bones[k].parent.None?|
  {
    if bones != [] {
      var n := |bones| - 1;
      var front := bones[..n];
      RootCountIsParentless(front);
      var s := set k | 0 <= k < n && front[k].parent.None?;
      var s' := set k | 0 <= k < |bones| && bones[k].parent.None?;
      if bones[n].parent.None? {
        assert s' == s + {n};
      } else {
        assert s' == s;
      }
    }
  }
}

/** Which of the mounts visible below the target a recursive remount reaches. */
module RemountVisible {
  import opened Wrappers
  import opened MountTable
  import opened MountWalk
  import opened MountPaths
  import opened MountLookup
  import opened Collective
  import opened Remount

  /** The root, or a mount that is visible below the target by path. */
  ghost predicate Concerned(ms: seq<Mount>, target: string, r: nat, x: nat)
    requires r < |ms|
  {
    x == r || (Walk(ByPath(ms), target, r, |ms|).Some? && x in Walk(ByPath(ms), target, r, |ms|).value)
  }

  /** After a recursive remount without failing calls every mount concerned has the flags. */
  ghost predicate AllHaveAfter(ms: seq<Mount>, start: nat, target: string, r: nat, before: seq<set<Flag>>,
                               mf: set<Flag>)
    requires start < |ms| && |before| == |ms| && r < |ms| && Walk(ms, target, r, |ms|).Some?
  {
    var after := Applied(ms, start, before, Order(r, Yielded(ms, target, r, true)), mf);
    after.Some? && forall x: nat :: x < |ms| && Concerned(ms, target, r, x) ==> mf <= after.value[x]
  }

  /** A mount visible by path that the walk does not meet. */
  ghost predicate Missed(ms: seq<Mount>, target: string, r: nat, x: nat)
    requires r < |ms| && Walk(ms, target, r, |ms|).Some?
  {
    Concerned(ms, target, r, x) && x != r && x !in Walk(ms, target, r, |ms|).value
  }

  /** Where the target leads to its root, all mounts concerned have the flags in the end exactly if those
      the walk does not meet had them from the start. */
  lemma MissedKeepTheirs(ms: seq<Mount>, start: nat, target: string, r: nat, before: seq<set<Flag>>, mf: set<Flag>)
    requires Nested(ms) && start < |ms| && |before| == |ms| && r < |ms| && ms[r].clean == target
    requires Walk(ms, target, r, |ms|).Some? && Top(ms, start, target) == Some(r)
    ensures AllHaveAfter(ms, start, target, r, before, mf) <==>
      forall x: nat :: x < |ms| && Missed(ms, target, r, x) ==> mf <= before[x]
  {
    var order := Order(r, Yielded(ms, target, r, true));
    OrderOnce(ms, target, r, true);
    RootLeads(ms, start, target, r, true);
    AppliedExactly(ms, start, before, order, mf);
    var after := Applied(ms, start, before, order, mf).value;
    forall x: nat | x < |ms| && Concerned(ms, target, r, x)
      ensures mf <= after[x] <==> !Missed(ms, target, r, x) || mf <= before[x]
    {
      assert x in order <==> !Missed(ms, target, r, x);
    }
    hide Applied, Order, Concerned;
  }

  /** Whatever flags the mounts have, a recursive remount without failing calls leaves the root and every
      mount visible by path below the target with the wanted flags exactly if nothing covers the root, a
      lookup of the target comes by it, and no entry is lost to the walk. */
  lemma AllVisibleHaveIff(ms: seq<Mount>, start: nat, target: string, r: nat, flags: set<Flag>)
    requires Nested(ms) && CleanPaths(ms) && CleanPath(target) && !OnCycle(ByPath(ms), target, r)
    requires start < |ms| && r < |ms| && ms[r].clean == target
    ensures Walk(ms, target, r, |ms|).Some?
    ensures (forall before: seq<set<Flag>> | |before| == |ms| ::
               AllHaveAfter(ms, start, target, r, before, Wanted(flags))) <==>
      !Covered(ms, target, r, |ms|) && (exists n :: Passes(ms, start, target, r, n)) && NothingLost(ms, target, r)
  {
    var mf := Wanted(flags);
    WalkEndsByPath(ms, target, r);
    TopIsRootIff(ms, start, target, r);
    WalkIndices(ms, target, r, |ms|);
    WalkIndices(ByPath(ms), target, r, |ms|);
    hide Covered, Passes, Nested, Top, NothingLost, Lost, CleanPaths, Walk, ByPath;
    if Top(ms, start, target) != Some(r) {
      RootStaysBare(ms, start, target, r, mf);
    } else if NothingLost(ms, target, r) {
      TopmostMetIff(ms, target, r);
      forall before: seq<set<Flag>> | |before| == |ms| ensures AllHaveAfter(ms, start, target, r, before, mf) {
        MissedKeepTheirs(ms, start, target, r, before, mf);
      }
    } else {
      var x := SomeMissed(ms, target, r);
      var before := seq(|ms|, i => {});
      MissedKeepTheirs(ms, start, target, r, before, mf);
      assert !(mf <= before[x]);
    }
  }

  lemma SomeMissed(ms: seq<Mount>, target: string, r: nat) returns (x: nat)
    requires CleanPaths(ms) && CleanPath(target) && r < |ms| && !OnCycle(ByPath(ms), target, r)
    requires Walk(ms, target, r, |ms|).Some? && Walk(ByPath(ms), target, r, |ms|).Some?
    requires !NothingLost(ms, target, r) && !Covered(ms, target, r, |ms|)
    ensures x < |ms| && Missed(ms, target, r, x)
  {
    var p: nat, i: nat :| Reaches(ByPath(ms), target, r, p) && Lost(ms, target, p, i);
    x := LostMount(ms, target, r, p, i);
    WalkIndices(ByPath(ms), target, r, |ms|);
    WalkMeets(ms, target, r, |ms|, r);
    assert IsPathTo(ms, target, [r], r, r);
  }

  /** A root that its path does not lead to is left without the flags. */
  lemma RootStaysBare(ms: seq<Mount>, start: nat, target: string, r: nat, mf: set<Flag>)
    requires start < |ms| && r < |ms| && ms[r].clean == target && Walk(ms, target, r, |ms|).Some?
    requires Top(ms, start, target) != Some(r) && Nosuid in mf
    ensures exists before: seq<set<Flag>> :: |before| == |ms| && !AllHaveAfter(ms, start, target, r, before, mf)
  {
    var before, w := Telltale(ms, r, mf), Yielded(ms, target, r, true);
    OrderOnce(ms, target, r, true);
    OnlyRootCalls(ms, start, before, r, w, |w|, mf);
    assert w[..|w|] == w && Concerned(ms, target, r, r);
    hide Order, Applied;
    assert !AllHaveAfter(ms, start, target, r, before, mf);
  }
}

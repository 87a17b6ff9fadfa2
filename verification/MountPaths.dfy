/** How the hierarchy, which compares paths as strings, relates to one that compares them component by
    component. */
module MountPaths {
  import opened Wrappers
  import opened MountTable
  import opened MountWalk

  /** Path a is b or an ancestor of b, component by component. */
  predicate IsPathPrefix(a: string, b: string) {
    a <= b && (|a| == |b| || (a != [] && a[|a| - 1] == '/') || b[|a|] == '/')
  }

  lemma PathPrefixTransitive(a: string, b: string, c: string)
    requires IsPathPrefix(a, b) && IsPathPrefix(b, c)
    ensures IsPathPrefix(a, c)
  {
  }

  /** Of two ancestors of one path the shorter is an ancestor of the other. */
  lemma PathPrefixesNest(a: string, b: string, c: string)
    requires IsPathPrefix(a, c) && IsPathPrefix(b, c) && |a| <= |b|
    ensures IsPathPrefix(a, b)
  {
  }

  /** A result of path cleaning: only the root ends with a slash. */
  predicate CleanPath(c: string) {
    c != [] && (c[|c| - 1] == '/' ==> c == "/")
  }

  predicate CleanPaths(ms: seq<Mount>) {
    forall i :: 0 <= i < |ms| ==> CleanPath(ms[i].clean)
  }

  function Slashed(c: string): string {
    if c != [] && c[|c| - 1] == '/' then c else c + "/"
  }

  /** The table with a slash after every path: on it, comparing strings is comparing components. */
  function ByPath(ms: seq<Mount>): (r: seq<Mount>)
    ensures |r| == |ms|
  {
    seq(|ms|, i requires 0 <= i < |ms| => Mount(ms[i].id, ms[i].parent, Slashed(ms[i].clean)))
  }

  lemma SlashedIsPathwise(a: string, b: string)
    requires CleanPath(a) && CleanPath(b)
    ensures Slashed(a) <= Slashed(b) <==> IsPathPrefix(a, b)
    ensures Slashed(a) == Slashed(b) <==> a == b
  {
    if a[|a| - 1] != '/' {
      if Slashed(a) <= Slashed(b) {
        assert Slashed(a)[..|a|] == a && Slashed(a)[|a|] == '/';
      }
    }
  }

  lemma {:induction false} LastByPath(ms: seq<Mount>, id: int)
    ensures Last(ByPath(ms), id) == Last(ms, id)
  {
    if ms != [] {
      assert ByPath(ms)[..|ms| - 1] == ByPath(ms[..|ms| - 1]);
      LastByPath(ms[..|ms| - 1], id);
    }
  }

  lemma CandidateByPath(ms: seq<Mount>, target: string, p: nat, i: nat)
    requires CleanPaths(ms) && CleanPath(target) && i < |ms|
    ensures Candidate(ByPath(ms), target, p, i) <==> Candidate(ms, target, p, i)
  {
    LastByPath(ms, ms[i].parent);
    var c := ms[i].clean;
    assert target != c + "/";
  }

  /** What minimality would be if one path covered another only component by component. */
  ghost predicate PathMinimal(ms: seq<Mount>, target: string, p: nat, i: nat) {
    && i < |ms| && Candidate(ms, target, p, i)
    && forall j :: 0 <= j < |ms| && j != i && Candidate(ms, target, p, j) && IsPathPrefix(ms[j].clean, ms[i].clean)
        ==> ms[j].clean == ms[i].clean && i < j
  }

  /** The slashed table selects the children by path component. */
  lemma MinimalByPath(ms: seq<Mount>, target: string, p: nat, i: nat)
    requires CleanPaths(ms) && CleanPath(target)
    ensures Minimal(ByPath(ms), target, p, |ms|, i) <==> PathMinimal(ms, target, p, i)
  {
    if i < |ms| {
      CandidateByPath(ms, target, p, i);
      forall j: nat | j < |ms|
        ensures Candidate(ByPath(ms), target, p, j) <==> Candidate(ms, target, p, j)
        ensures ByPath(ms)[j].clean <= ByPath(ms)[i].clean <==> IsPathPrefix(ms[j].clean, ms[i].clean)
        ensures ByPath(ms)[j].clean == ByPath(ms)[i].clean <==> ms[j].clean == ms[i].clean
      {
        CandidateByPath(ms, target, p, j);
        SlashedIsPathwise(ms[j].clean, ms[i].clean);
      }
      hide ByPath, Candidate, IsPathPrefix;
    }
  }

  lemma CoveredByPath(ms: seq<Mount>, target: string, p: nat)
    requires CleanPaths(ms) && CleanPath(target) && p < |ms|
    ensures Covered(ByPath(ms), target, p, |ms|) <==> Covered(ms, target, p, |ms|)
  {
    forall j: nat | j < |ms|
      ensures Candidate(ByPath(ms), target, p, j) <==> Candidate(ms, target, p, j)
      ensures ByPath(ms)[j].clean == ByPath(ms)[p].clean <==> ms[j].clean == ms[p].clean
    {
      CandidateByPath(ms, target, p, j);
      SlashedIsPathwise(ms[j].clean, ms[p].clean);
    }
    hide ByPath, Candidate;
  }

  /** Entry m takes entry i away by path: it is a proper ancestor, or an earlier entry at the same path. */
  predicate Shadows(ms: seq<Mount>, m: nat, i: nat)
    requires m < |ms| && i < |ms|
  {
    IsPathPrefix(ms[m].clean, ms[i].clean) && (ms[m].clean == ms[i].clean ==> m < i)
  }

  /** Entry i, a candidate of p, merely has a name that extends the path of another candidate, and no
      candidate takes it away by path. */
  ghost predicate Lost(ms: seq<Mount>, target: string, p: nat, i: nat) {
    && i < |ms| && Candidate(ms, target, p, i)
    && (exists j: nat :: j < |ms| && Candidate(ms, target, p, j) && ms[j].clean <= ms[i].clean
          && !IsPathPrefix(ms[j].clean, ms[i].clean))
    && forall m: nat :: m < |ms| && m != i && Candidate(ms, target, p, m) ==> !Shadows(ms, m, i)
  }

  lemma LostIff(ms: seq<Mount>, target: string, p: nat, i: nat)
    ensures Lost(ms, target, p, i) <==> PathMinimal(ms, target, p, i) && !Minimal(ms, target, p, |ms|, i)
    ensures Minimal(ms, target, p, |ms|, i) ==> PathMinimal(ms, target, p, i)
  {
  }

  /** The children of p by string are children by path, and the others are the lost ones. */
  lemma KidsByPath(ms: seq<Mount>, target: string, p: nat, i: nat)
    requires CleanPaths(ms) && CleanPath(target)
    ensures i in Kids(ms, target, p) ==> i in Kids(ByPath(ms), target, p)
    ensures i in Kids(ByPath(ms), target, p) <==> PathMinimal(ms, target, p, i)
    ensures Lost(ms, target, p, i) <==> i in Kids(ByPath(ms), target, p) && i !in Kids(ms, target, p)
  {
    LostIff(ms, target, p, i);
    MinimalByPath(ms, target, p, i);
    hide Lost, PathMinimal, Minimal;
  }

  lemma PathByPath(ms: seq<Mount>, target: string, path: seq<nat>)
    requires CleanPaths(ms) && CleanPath(target) && IsPath(ms, target, path)
    ensures IsPath(ByPath(ms), target, path)
  {
    forall k | 0 <= k < |path| - 1 ensures path[k + 1] in Kids(ByPath(ms), target, path[k]) {
      KidsByPath(ms, target, path[k], path[k + 1]);
    }
  }

  /** Off cycles, two paths with the same ends are the same. */
  lemma SamePath(ms: seq<Mount>, target: string, p: seq<nat>, q: seq<nat>)
    requires IsPath(ms, target, p) && IsPath(ms, target, q) && p[0] == q[0] && p[|p| - 1] == q[|q| - 1]
    requires !OnCycle(ms, target, p[0])
    ensures p == q
  {
    if |p| < |q| {
      Longer(ms, target, p, q);
    } else if |q| < |p| {
      Longer(ms, target, q, p);
    } else {
      forall k | 0 <= k < |p| ensures p[k] == q[k] {
        SharedEnd(ms, target, p, q, |p| - 1 - k);
      }
    }
  }

  lemma Longer(ms: seq<Mount>, target: string, p: seq<nat>, q: seq<nat>)
    requires IsPath(ms, target, p) && IsPath(ms, target, q) && p[0] == q[0] && p[|p| - 1] == q[|q| - 1]
    requires |p| < |q|
    ensures OnCycle(ms, target, p[0])
  {
    SharedEnd(ms, target, p, q, |p| - 1);
    RepeatIsCycle(ms, target, q, 0, |q| - |p|);
  }

  /** A path runs on from one to the next. */
  lemma PathJoin(ms: seq<Mount>, target: string, a: seq<nat>, b: seq<nat>)
    requires IsPath(ms, target, a) && IsPath(ms, target, b) && b[0] in Kids(ms, target, a[|a| - 1])
    ensures IsPath(ms, target, a + b)
  {
    var path := a + b;
    forall k | 0 <= k < |path| - 1 ensures path[k + 1] in Kids(ms, target, path[k]) {
      if k < |a| - 1 {
        assert a[k + 1] in Kids(ms, target, a[k]);
      } else if k >= |a| {
        assert b[k - |a| + 1] in Kids(ms, target, b[k - |a|]);
      }
    }
  }

  lemma Joint(ms: seq<Mount>, target: string, a: seq<nat>, b: seq<nat>)
    requires a != [] && b != [] && IsPath(ms, target, a + b)
    ensures b[0] in Kids(ms, target, a[|a| - 1])
  {
    var path, k := a + b, |a| - 1;
    assert path[k + 1] in Kids(ms, target, path[k]);
  }

  /** With a lost entry its whole subtree is lost: nothing below it by path is met. */
  lemma SubtreeIsLost(ms: seq<Mount>, target: string, r: nat, p: nat, i: nat, x: nat)
    requires CleanPaths(ms) && CleanPath(target) && r < |ms| && !OnCycle(ByPath(ms), target, r)
    requires Reaches(ByPath(ms), target, r, p) && Lost(ms, target, p, i) && Reaches(ByPath(ms), target, i, x)
    ensures Reaches(ByPath(ms), target, r, x) && !Reaches(ms, target, r, x)
  {
    var a :| IsPathTo(ByPath(ms), target, a, r, p);
    var b :| IsPathTo(ByPath(ms), target, b, i, x);
    KidsByPath(ms, target, p, i);
    PathJoin(ByPath(ms), target, a, b);
    assert IsPathTo(ByPath(ms), target, a + b, r, x);
    if Reaches(ms, target, r, x) {
      var q :| IsPathTo(ms, target, q, r, x);
      PathByPath(ms, target, q);
      SamePath(ByPath(ms), target, a + b, q);
      Joint(ms, target, a, b);
    }
  }

  lemma CoveredHasKid(ms: seq<Mount>, target: string, i: nat)
    requires i < |ms| && Covered(ms, target, i, |ms|)
    ensures Kids(ms, target, i) != []
  {
    var j: nat :| j < |ms| && Candidate(ms, target, i, j) && ms[j].clean == ms[i].clean;
    var m := SomeMinimal(ms, target, i, |ms|, j);
    assert m in Children(ms, target, i, |ms|);
  }

  /** Every walk that ends meets something: below a covered entry there is an uncovered one. */
  lemma {:induction false} WalkMeetsSome(ms: seq<Mount>, target: string, i: nat, depth: nat)
    requires i < |ms| && Walk(ms, target, i, depth).Some?
    ensures Walk(ms, target, i, depth).value != []
    decreases depth
  {
    hide Kids, Covered;
    if Covered(ms, target, i, |ms|) {
      CoveredHasKid(ms, target, i);
      WalkMeetsSome(ms, target, Kids(ms, target, i)[0], depth - 1);
    }
  }

  ghost predicate NothingLost(ms: seq<Mount>, target: string, r: nat) {
    forall p: nat, i: nat :: Reaches(ByPath(ms), target, r, p) ==> !Lost(ms, target, p, i)
  }

  /** If nothing is lost, what is reached by path is reached. */
  lemma NothingLostReaches(ms: seq<Mount>, target: string, r: nat, x: nat)
    requires CleanPaths(ms) && CleanPath(target) && NothingLost(ms, target, r)
    ensures Reaches(ms, target, r, x) <==> Reaches(ByPath(ms), target, r, x)
  {
    if path :| IsPathTo(ms, target, path, r, x) {
      PathByPath(ms, target, path);
      assert IsPathTo(ByPath(ms), target, path, r, x);
    }
    if path :| IsPathTo(ByPath(ms), target, path, r, x) {
      forall k | 0 <= k < |path| - 1 ensures path[k + 1] in Kids(ms, target, path[k]) {
        PathStart(ByPath(ms), target, path, k);
        KidsByPath(ms, target, path[k], path[k + 1]);
        assert !Lost(ms, target, path[k], path[k + 1]);
      }
      assert IsPathTo(ms, target, path, r, x);
    }
  }

  lemma PathStart(ms: seq<Mount>, target: string, path: seq<nat>, k: nat)
    requires IsPath(ms, target, path) && k < |path|
    ensures Reaches(ms, target, path[0], path[k])
  {
    var start := path[..k + 1];
    forall m | 0 <= m < |start| - 1 ensures start[m + 1] in Kids(ms, target, start[m]) {
      assert path[m + 1] in Kids(ms, target, path[m]);
    }
    assert IsPathTo(ms, target, start, path[0], path[k]);
  }

  lemma WalkEndsByPath(ms: seq<Mount>, target: string, r: nat)
    requires CleanPaths(ms) && CleanPath(target) && r < |ms| && !OnCycle(ByPath(ms), target, r)
    ensures Walk(ms, target, r, |ms|).Some? && Walk(ByPath(ms), target, r, |ms|).Some?
  {
    WalkEndsIff(ms, target, r);
    WalkEndsIff(ByPath(ms), target, r);
    if path :| |path| > 1 && IsPathTo(ms, target, path, r, r) {
      PathByPath(ms, target, path);
      assert IsPathTo(ByPath(ms), target, path, r, r);
    }
  }

  /** The walk from the root meets exactly the mounts that a walk by path component meets if and only
      if no candidate below it is lost. The condition speaks of the entries of the table. */
  lemma TopmostMetIff(ms: seq<Mount>, target: string, r: nat)
    requires CleanPaths(ms) && CleanPath(target) && r < |ms| && !OnCycle(ByPath(ms), target, r)
    ensures Walk(ms, target, r, |ms|).Some? && Walk(ByPath(ms), target, r, |ms|).Some?
    ensures (forall x: nat ::
               x in Walk(ms, target, r, |ms|).value <==> x in Walk(ByPath(ms), target, r, |ms|).value) <==>
      NothingLost(ms, target, r)
  {
    WalkEndsByPath(ms, target, r);
    if NothingLost(ms, target, r) {
      forall x: nat ensures x in Walk(ms, target, r, |ms|).value <==> x in Walk(ByPath(ms), target, r, |ms|).value {
        WalkMeets(ms, target, r, |ms|, x);
        WalkMeets(ByPath(ms), target, r, |ms|, x);
        NothingLostReaches(ms, target, r, x);
        if x < |ms| {
          CoveredByPath(ms, target, x);
        }
      }
    } else {
      var p: nat, i: nat :| Reaches(ByPath(ms), target, r, p) && Lost(ms, target, p, i);
      var x := LostMount(ms, target, r, p, i);
      assert x in Walk(ByPath(ms), target, r, |ms|).value && x !in Walk(ms, target, r, |ms|).value;
    }
  }

  /** A lost entry leaves a visible mount unmet. */
  lemma LostMount(ms: seq<Mount>, target: string, r: nat, p: nat, i: nat) returns (x: nat)
    requires CleanPaths(ms) && CleanPath(target) && r < |ms| && !OnCycle(ByPath(ms), target, r)
    requires Reaches(ByPath(ms), target, r, p) && Lost(ms, target, p, i)
    requires Walk(ms, target, r, |ms|).Some? && Walk(ByPath(ms), target, r, |ms|).Some?
    ensures x in Walk(ByPath(ms), target, r, |ms|).value && x !in Walk(ms, target, r, |ms|).value
  {
    BelowIsOffCycle(ms, target, r, p, i);
    WalkEndsIff(ByPath(ms), target, i);
    WalkMeetsSome(ByPath(ms), target, i, |ms|);
    x := Walk(ByPath(ms), target, i, |ms|).value[0];
    WalkMeets(ByPath(ms), target, i, |ms|, x);
    SubtreeIsLost(ms, target, r, p, i, x);
    WalkMeets(ByPath(ms), target, r, |ms|, x);
    WalkMeets(ms, target, r, |ms|, x);
  }

  lemma BelowIsOffCycle(ms: seq<Mount>, target: string, r: nat, p: nat, i: nat)
    requires CleanPaths(ms) && CleanPath(target) && r < |ms| && !OnCycle(ByPath(ms), target, r)
    requires Reaches(ByPath(ms), target, r, p) && Lost(ms, target, p, i)
    ensures !OnCycle(ByPath(ms), target, i)
  {
    if path :| |path| > 1 && IsPathTo(ByPath(ms), target, path, i, i) {
      var a :| IsPathTo(ByPath(ms), target, a, r, p);
      KidsByPath(ms, target, p, i);
      PathJoin(ByPath(ms), target, a, path);
      var whole := a + path;
      RepeatIsCycle(ByPath(ms), target, whole, |a|, |whole| - 1);
    }
  }

  /** A mount beside another whose name its own name extends is lost: /d hides its sibling /db. */
  lemma NeighbourIsLost()
    ensures var ms := [Mount(1, 0, "/"), Mount(2, 1, "/d"), Mount(3, 1, "/db")];
      PathMinimal(ms, "/", 0, 2) && !Minimal(ms, "/", 0, 3, 2) && !Reaches(ms, "/", 0, 2)
  {
    var ms := [Mount(1, 0, "/"), Mount(2, 1, "/d"), Mount(3, 1, "/db")];
    assert ms[..2] == [ms[0], ms[1]] && ms[..2][..1] == [ms[0]] && ms[..1] == [ms[0]];
    assert Last(ms, 1) == Some(0) && Last(ms, 0) == None;
    assert Candidate(ms, "/", 0, 1) && Candidate(ms, "/", 0, 2);
    assert ms[1].clean <= ms[2].clean;
    forall j | 0 <= j < 3 && j != 2 && Candidate(ms, "/", 0, j) ensures !IsPathPrefix(ms[j].clean, ms[2].clean) {
      assert j == 1;
    }
    assert !Minimal(ms, "/", 0, 3, 2);
    assert Kids(ms, "/", 0) == Children(ms, "/", 0, 3);
    forall k, p: nat | 0 <= k < |Kids(ms, "/", p)| ensures Kids(ms, "/", p)[k] == 1 && p == 0 {
      assert Kids(ms, "/", p)[k] in Kids(ms, "/", p);
    }
    ReachesStep(ms, "/", 0, 2);
    ReachesStep(ms, "/", 1, 2);
  }
}

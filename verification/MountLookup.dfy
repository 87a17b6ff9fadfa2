/** How the kernel finds the mount at a path: from a first mount on, it crosses whatever is mounted on
    the way. */
module MountLookup {
  import opened Wrappers
  import opened MountTable
  import opened MountWalk
  import opened MountPaths

  /** Entry c is mounted on entry m. */
  predicate On(ms: seq<Mount>, m: nat, c: nat) {
    c < |ms| && Last(ms, ms[c].parent) == Some(m)
  }

  /** What a kernel's table is like: nothing is mounted on itself, a mount lies at or below the path
      of the one it is on, and no two mounts are on the same place. */
  ghost predicate Nested(ms: seq<Mount>) {
    && (forall m: nat, c: nat :: m < |ms| && On(ms, m, c) ==> c != m && IsPathPrefix(ms[m].clean, ms[c].clean))
    && (forall m: nat, c: nat, d: nat ::
          On(ms, m, c) && On(ms, m, d) && ms[c].clean == ms[d].clean ==> c == d)
  }

  /** Entry c is mounted on m, on the way to the path. */
  predicate InTheWay(ms: seq<Mount>, m: nat, path: string, c: nat) {
    On(ms, m, c) && IsPathPrefix(ms[c].clean, path)
  }

  /** Of the first k entries, the one on m that a lookup of the path comes to first. */
  function Crossing(ms: seq<Mount>, m: nat, path: string, k: nat): (r: Option<nat>)
    requires k <= |ms|
    ensures r.Some? ==> r.value < k
    decreases k
  {
    if k == 0 then None
    else
      var r := Crossing(ms, m, path, k - 1);
      if InTheWay(ms, m, path, k - 1) && (r.None? || |ms[k - 1].clean| < |ms[r.value].clean|) then Some(k - 1) else r
  }

  lemma {:induction false} CrossingIsFirst(ms: seq<Mount>, m: nat, path: string, k: nat)
    requires k <= |ms|
    ensures var r := Crossing(ms, m, path, k);
      && (r.Some? ==> InTheWay(ms, m, path, r.value))
      && forall c: nat :: c < k && InTheWay(ms, m, path, c) ==> r.Some? && |ms[r.value].clean| <= |ms[c].clean|
    decreases k
  {
    hide InTheWay;
    if k > 0 {
      CrossingIsFirst(ms, m, path, k - 1);
    }
  }

  /** The mount on which a lookup of the path from mount m ends, if it does within n crossings. */
  function Lookup(ms: seq<Mount>, m: nat, path: string, n: nat): Option<nat>
    decreases n
  {
    match Crossing(ms, m, path, |ms|)
    case None => Some(m)
    case Some(c) => if n == 0 then None else Lookup(ms, c, path, n - 1)
  }

  /** The mount whose root is at the path, as a process whose root is on the mount start sees it. */
  function Top(ms: seq<Mount>, start: nat, path: string): (r: Option<nat>)
    requires start < |ms|
    ensures r.Some? ==> r.value < |ms| && ms[r.value].clean == path
  {
    match Lookup(ms, start, path, |ms|)
    case None => None
    case Some(m) => if m < |ms| && ms[m].clean == path then Some(m) else None
  }

  /** The mounts of a lookup that ends. */
  ghost function Trail(ms: seq<Mount>, m: nat, path: string, n: nat): (t: seq<nat>)
    requires Lookup(ms, m, path, n).Some?
    ensures t != [] && t[0] == m && t[|t| - 1] == Lookup(ms, m, path, n).value && |t| <= n + 1
    ensures m < |ms| ==> forall k :: 0 <= k < |t| ==> t[k] < |ms|
    decreases n
  {
    match Crossing(ms, m, path, |ms|)
    case None => [m]
    case Some(c) => [m] + Trail(ms, c, path, n - 1)
  }

  lemma {:induction false} TrailFixed(ms: seq<Mount>, m: nat, path: string, n: nat, n': nat)
    requires Lookup(ms, m, path, n).Some? && Lookup(ms, m, path, n').Some?
    ensures Trail(ms, m, path, n) == Trail(ms, m, path, n')
    decreases n
  {
    var c := Crossing(ms, m, path, |ms|);
    if c.Some? {
      TrailFixed(ms, c.value, path, n - 1, n' - 1);
    }
  }

  lemma {:induction false} TrailRest(ms: seq<Mount>, m: nat, path: string, n: nat, j: nat)
    requires Lookup(ms, m, path, n).Some? && j < |Trail(ms, m, path, n)|
    ensures j <= n && Lookup(ms, Trail(ms, m, path, n)[j], path, n - j).Some?
    ensures Trail(ms, Trail(ms, m, path, n)[j], path, n - j) == Trail(ms, m, path, n)[j..]
    decreases j
  {
    hide Crossing, Trail, Lookup;
    var t := Trail(ms, m, path, n);
    if j > 0 {
      TrailCons(ms, m, path, n);
      var c := Crossing(ms, m, path, |ms|).value;
      TrailRest(ms, c, path, n - 1, j - 1);
      assert t[j..] == Trail(ms, c, path, n - 1)[j - 1..];
    } else {
      assert t[0..] == t;
    }
  }

  lemma TrailCons(ms: seq<Mount>, m: nat, path: string, n: nat)
    requires Lookup(ms, m, path, n).Some? && |Trail(ms, m, path, n)| > 1
    ensures n > 0 && Crossing(ms, m, path, |ms|).Some?
    ensures var c := Crossing(ms, m, path, |ms|).value;
      Lookup(ms, c, path, n - 1).Some? && Trail(ms, m, path, n) == [m] + Trail(ms, c, path, n - 1)
  {
    hide Crossing;
  }

  /** As many crossings as the trail has are enough. */
  lemma {:induction false} LookupShort(ms: seq<Mount>, m: nat, path: string, n: nat, n': nat)
    requires Lookup(ms, m, path, n).Some? && |Trail(ms, m, path, n)| <= n' + 1
    ensures Lookup(ms, m, path, n') == Lookup(ms, m, path, n)
    decreases n
  {
    var c := Crossing(ms, m, path, |ms|);
    if c.Some? {
      LookupShort(ms, c.value, path, n - 1, n' - 1);
    }
  }

  lemma TrailDistinct(ms: seq<Mount>, m: nat, path: string, n: nat, a: nat, b: nat)
    requires Lookup(ms, m, path, n).Some? && a < b < |Trail(ms, m, path, n)|
    ensures Trail(ms, m, path, n)[a] != Trail(ms, m, path, n)[b]
  {
    hide Crossing, Lookup;
    var t := Trail(ms, m, path, n);
    TrailRest(ms, m, path, n, a);
    TrailRest(ms, m, path, n, b);
    assert |t[a..]| != |t[b..]|;
    if t[a] == t[b] {
      TrailFixed(ms, t[a], path, n - a, n - b);
    }
  }

  /** A lookup that ends, ends within the size of the table. */
  lemma LookupBounded(ms: seq<Mount>, m: nat, path: string, n: nat)
    requires m < |ms| && Lookup(ms, m, path, n).Some?
    ensures Lookup(ms, m, path, |ms|) == Lookup(ms, m, path, n)
  {
    hide Crossing, Lookup;
    var t := Trail(ms, m, path, n);
    if |t| > |ms| {
      var a, b := Pigeonhole(t, |ms|);
      TrailDistinct(ms, m, path, n, a, b);
    } else {
      LookupShort(ms, m, path, n, |ms|);
    }
  }

  /** Towards a path below the target, a lookup crosses what it crosses towards the target. */
  lemma SameCrossing(ms: seq<Mount>, m: nat, target: string, path: string)
    requires Nested(ms) && IsPathPrefix(target, path) && Crossing(ms, m, target, |ms|).Some?
    ensures Crossing(ms, m, path, |ms|) == Crossing(ms, m, target, |ms|)
  {
    var c := Crossing(ms, m, target, |ms|).value;
    CrossingIsFirst(ms, m, target, |ms|);
    CrossingIsFirst(ms, m, path, |ms|);
    PathPrefixTransitive(ms[c].clean, target, path);
    assert InTheWay(ms, m, path, c);
    var d := Crossing(ms, m, path, |ms|).value;
    PathPrefixesNest(ms[d].clean, ms[c].clean, path);
    PathPrefixTransitive(ms[d].clean, ms[c].clean, target);
    assert InTheWay(ms, m, target, d);
    assert ms[d].clean == ms[c].clean;
  }

  /** A lookup towards a path below the target goes on from where the one of the target ends. */
  lemma {:induction false} LookupThrough(ms: seq<Mount>, m: nat, target: string, path: string, n: nat, k: nat)
    requires Nested(ms) && IsPathPrefix(target, path) && Lookup(ms, m, target, n).Some?
    requires Lookup(ms, Lookup(ms, m, target, n).value, path, k).Some?
    ensures Lookup(ms, m, path, n + k) == Lookup(ms, Lookup(ms, m, target, n).value, path, k)
    decreases n
  {
    hide Crossing, Nested, IsPathPrefix;
    var c := Crossing(ms, m, target, |ms|);
    if c.Some? {
      SameCrossing(ms, m, target, path);
      LookupThrough(ms, c.value, target, path, n - 1, k);
    } else {
      LookupMore(ms, m, path, k, n + k);
    }
  }

  lemma {:induction false} LookupMore(ms: seq<Mount>, m: nat, path: string, n: nat, n': nat)
    requires Lookup(ms, m, path, n).Some? && n <= n'
    ensures Lookup(ms, m, path, n') == Lookup(ms, m, path, n)
    decreases n
  {
    var c := Crossing(ms, m, path, |ms|);
    if c.Some? {
      LookupMore(ms, c.value, path, n - 1, n' - 1);
    }
  }

  /** At its own path, a lookup stops on a mount exactly if nothing covers it. */
  lemma StopsIffUncovered(ms: seq<Mount>, target: string, x: nat)
    requires Nested(ms) && x < |ms| && target <= ms[x].clean
    ensures Crossing(ms, x, ms[x].clean, |ms|).None? <==> !Covered(ms, target, x, |ms|)
  {
    if Covered(ms, target, x, |ms|) {
      var j: nat :| j < |ms| && Candidate(ms, target, x, j) && ms[j].clean == ms[x].clean;
      assert InTheWay(ms, x, ms[x].clean, j);
    }
    CrossingIsFirst(ms, x, ms[x].clean, |ms|);
    var c := Crossing(ms, x, ms[x].clean, |ms|);
    if c.Some? {
      assert On(ms, x, c.value) && IsPathPrefix(ms[x].clean, ms[c.value].clean);
      assert Candidate(ms, target, x, c.value) && ms[c.value].clean == ms[x].clean;
    }
  }

  /** What a walk meets lies at or below the path of its start. */
  lemma {:induction false} WalkIsBelow(ms: seq<Mount>, target: string, i: nat, depth: nat, x: nat)
    requires Nested(ms) && i < |ms| && Walk(ms, target, i, depth).Some? && x in Walk(ms, target, i, depth).value
    ensures x < |ms| && IsPathPrefix(ms[i].clean, ms[x].clean) && !Covered(ms, target, x, |ms|)
    decreases depth
  {
    var l := Kids(ms, target, i);
    if x in WalkAll(ms, target, l, depth - 1).value {
      var k := WalkAllPart(ms, target, l, depth - 1, x);
      WalkIsBelow(ms, target, l[k], depth - 1, x);
      assert On(ms, i, l[k]);
      PathPrefixTransitive(ms[i].clean, ms[l[k]].clean, ms[x].clean);
    }
  }

  lemma {:induction false} WalkAllPart(ms: seq<Mount>, target: string, l: seq<nat>, depth: nat, x: nat) returns (k: nat)
    requires Indices(ms, l) && WalkAll(ms, target, l, depth).Some? && x in WalkAll(ms, target, l, depth).value
    ensures k < |l| && Walk(ms, target, l[k], depth).Some? && x in Walk(ms, target, l[k], depth).value
    decreases |l|
  {
    if x in Walk(ms, target, l[0], depth).value {
      k := 0;
    } else {
      var m := WalkAllPart(ms, target, l[1..], depth, x);
      k := m + 1;
    }
  }

  /** Towards a mount below a child, a lookup crosses to that child. */
  lemma CrossesToKid(ms: seq<Mount>, target: string, i: nat, c: nat, path: string)
    requires Nested(ms) && i < |ms| && c in Kids(ms, target, i) && c < |ms| && IsPathPrefix(ms[c].clean, path)
    requires target <= ms[i].clean
    ensures Crossing(ms, i, path, |ms|) == Some(c)
  {
    assert c in Children(ms, target, i, |ms|);
    assert Minimal(ms, target, i, |ms|, c);
    assert InTheWay(ms, i, path, c);
    CrossingIsFirst(ms, i, path, |ms|);
    var d := Crossing(ms, i, path, |ms|).value;
    PathPrefixesNest(ms[d].clean, ms[c].clean, path);
    if d != c {
      ShorterIsCandidate(ms, target, i, c, d);
    }
  }

  lemma ShorterIsCandidate(ms: seq<Mount>, target: string, i: nat, c: nat, d: nat)
    requires Nested(ms) && i < |ms| && Minimal(ms, target, i, |ms|, c) && c < |ms|
    requires On(ms, i, d) && ms[d].clean <= ms[c].clean && target <= ms[i].clean
    ensures d == c
  {
    assert IsPathPrefix(ms[i].clean, ms[d].clean);
    assert Candidate(ms, target, i, d);
  }

  /** From the start of a walk, a lookup of the path of a mount it meets ends on that mount. */
  lemma {:induction false} WalkIsLookedUp(ms: seq<Mount>, target: string, i: nat, depth: nat, x: nat) returns (n: nat)
    requires Nested(ms) && i < |ms| && target <= ms[i].clean
    requires Walk(ms, target, i, depth).Some? && x in Walk(ms, target, i, depth).value
    ensures x < |ms| && Lookup(ms, i, ms[x].clean, n) == Some(x)
    decreases depth
  {
    WalkIsBelow(ms, target, i, depth, x);
    var l := Kids(ms, target, i);
    hide Kids, Crossing, Covered;
    if x in WalkAll(ms, target, l, depth - 1).value {
      var k := WalkAllPart(ms, target, l, depth - 1, x);
      WalkIsBelow(ms, target, l[k], depth - 1, x);
      assert On(ms, i, l[k]) && IsPathPrefix(ms[i].clean, ms[l[k]].clean);
      n := WalkIsLookedUp(ms, target, l[k], depth - 1, x);
      CrossesToKid(ms, target, i, l[k], ms[x].clean);
      n := n + 1;
    } else {
      StopsIffUncovered(ms, target, x);
      n := 0;
    }
  }

  /** If the path of the root leads to it, the path of every mount the walk meets leads to that mount. */
  lemma TopOfVisible(ms: seq<Mount>, start: nat, target: string, r: nat, x: nat)
    requires Nested(ms) && start < |ms| && Top(ms, start, target) == Some(r)
    requires Walk(ms, target, r, |ms|).Some? && x in Walk(ms, target, r, |ms|).value
    ensures x < |ms| && Top(ms, start, ms[x].clean) == Some(x)
  {
    hide Lookup, Crossing, Walk, Nested, Covered, IsPathPrefix;
    WalkIsBelow(ms, target, r, |ms|, x);
    TopMeans(ms, start, target);
    TopMeans(ms, start, ms[x].clean);
    var n := WalkIsLookedUp(ms, target, r, |ms|, x);
    LookupThrough(ms, start, target, ms[x].clean, |ms|, n);
    LookupBounded(ms, start, ms[x].clean, |ms| + n);
  }

  lemma TopMeans(ms: seq<Mount>, start: nat, path: string)
    requires start < |ms|
    ensures Top(ms, start, path).Some? ==> Lookup(ms, start, path, |ms|) == Top(ms, start, path)
    ensures var m := Lookup(ms, start, path, |ms|);
      m.Some? && m.value < |ms| && ms[m.value].clean == path ==> Top(ms, start, path) == m
  {
  }

  /** The lookup of the path comes by the mount r within n crossings. */
  predicate Passes(ms: seq<Mount>, m: nat, path: string, r: nat, n: nat)
    decreases n
  {
    var c := Crossing(ms, m, path, |ms|);
    m == r || (n > 0 && c.Some? && Passes(ms, c.value, path, r, n - 1))
  }

  lemma {:induction false} PassesToEnd(ms: seq<Mount>, m: nat, path: string, r: nat, n: nat)
    requires Crossing(ms, r, path, |ms|).None?
    ensures Passes(ms, m, path, r, n) <==> Lookup(ms, m, path, n) == Some(r)
    decreases n
  {
    var c := Crossing(ms, m, path, |ms|);
    if c.Some? && n > 0 {
      PassesToEnd(ms, c.value, path, r, n - 1);
    }
  }

  /** The path of a mount leads to it exactly if nothing covers the mount and the lookup comes by it,
      that is if it is not hidden below something else. */
  lemma TopIsRootIff(ms: seq<Mount>, start: nat, target: string, r: nat)
    requires Nested(ms) && start < |ms| && r < |ms| && ms[r].clean == target
    ensures Top(ms, start, target) == Some(r) <==>
      !Covered(ms, target, r, |ms|) && exists n :: Passes(ms, start, target, r, n)
  {
    StopsIffUncovered(ms, target, r);
    if Top(ms, start, target) == Some(r) {
      EndIsStop(ms, start, target, |ms|);
      PassesToEnd(ms, start, target, r, |ms|);
      assert Passes(ms, start, target, r, |ms|);
    }
    if !Covered(ms, target, r, |ms|) {
      if n: nat :| Passes(ms, start, target, r, n) {
        PassesToEnd(ms, start, target, r, n);
        LookupBounded(ms, start, target, n);
      }
    }
  }

  lemma {:induction false} EndIsStop(ms: seq<Mount>, m: nat, path: string, n: nat)
    requires Lookup(ms, m, path, n).Some?
    ensures Crossing(ms, Lookup(ms, m, path, n).value, path, |ms|).None?
    decreases n
  {
    var c := Crossing(ms, m, path, |ms|);
    if c.Some? {
      EndIsStop(ms, c.value, path, n - 1);
    }
  }
}

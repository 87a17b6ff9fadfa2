/** Walks over the mount hierarchy: which nodes a walk meets, and when it ends. */
module MountWalk {
  import opened Wrappers
  import opened MountTable

  ghost function Kids(ms: seq<Mount>, target: string, i: nat): (l: seq<nat>)
    ensures forall k :: 0 <= k < |l| ==> l[k] < |ms| && Last(ms, ms[l[k]].parent) == Some(i)
    ensures forall a, b :: 0 <= a < b < |l| ==> l[a] < l[b]
  {
    var l := Children(ms, target, i, |ms|);
    assert forall k :: 0 <= k < |l| ==> l[k] in l;
    l
  }

  /** The preorder walk from entry i that skips covered entries, if it ends within the given depth. */
  ghost function Walk(ms: seq<Mount>, target: string, i: nat, depth: nat): Option<seq<nat>>
    requires i < |ms|
    decreases depth, 0
  {
    if depth == 0 then None
    else
      match WalkAll(ms, target, Kids(ms, target, i), depth - 1)
      case None => None
      case Some(w) => Some((if Covered(ms, target, i, |ms|) then [] else [i]) + w)
  }

  ghost function WalkAll(ms: seq<Mount>, target: string, l: seq<nat>, depth: nat): Option<seq<nat>>
    requires Indices(ms, l)
    decreases depth, 1 + |l|
  {
    if l == [] then Some([])
    else
      match (Walk(ms, target, l[0], depth), WalkAll(ms, target, l[1..], depth))
      case (Some(v), Some(w)) => Some(v + w)
      case _ => None
  }

  /** A descent along child links. */
  ghost predicate IsPath(ms: seq<Mount>, target: string, path: seq<nat>) {
    && path != []
    && (forall k :: 0 <= k < |path| ==> path[k] < |ms|)
    && forall k :: 0 <= k < |path| - 1 ==> path[k + 1] in Kids(ms, target, path[k])
  }

  ghost predicate IsPathTo(ms: seq<Mount>, target: string, path: seq<nat>, i: nat, x: nat) {
    IsPath(ms, target, path) && path[0] == i && path[|path| - 1] == x
  }

  ghost predicate Reaches(ms: seq<Mount>, target: string, i: nat, x: nat) {
    exists path :: IsPathTo(ms, target, path, i, x)
  }

  /** Entry i is its own ancestor. */
  ghost predicate OnCycle(ms: seq<Mount>, target: string, i: nat) {
    exists path :: |path| > 1 && IsPathTo(ms, target, path, i, i)
  }

  lemma {:induction false} WalkAllEach(ms: seq<Mount>, target: string, l: seq<nat>, depth: nat)
    requires Indices(ms, l)
    ensures WalkAll(ms, target, l, depth).Some? <==> forall k :: 0 <= k < |l| ==> Walk(ms, target, l[k], depth).Some?
  {
    if l != [] {
      WalkAllEach(ms, target, l[1..], depth);
      assert forall k :: 0 < k < |l| ==> l[k] == l[1..][k - 1];
    }
  }

  /** No depth is enough on a cycle. */
  lemma {:induction false} CycleNeverEnds(ms: seq<Mount>, target: string, path: seq<nat>, depth: nat)
    requires |path| > 1 && IsPath(ms, target, path) && path[0] == path[|path| - 1]
    ensures Walk(ms, target, path[0], depth).None?
    decreases depth
  {
    if depth > 0 {
      var turned := path[1..] + [path[1]];
      assert path[|path| - 1] == path[0];
      forall k | 0 <= k < |turned| - 1 ensures turned[k + 1] in Kids(ms, target, turned[k]) {
        if k < |path| - 2 {
          assert turned[k] == path[k + 1] && turned[k + 1] == path[k + 2];
        } else {
          assert turned[k] == path[0] && turned[k + 1] == path[1];
        }
      }
      CycleNeverEnds(ms, target, turned, depth - 1);
      WalkAllEach(ms, target, Kids(ms, target, path[0]), depth - 1);
      assert path[0 + 1] in Kids(ms, target, path[0]);
    }
  }

  lemma PathCons(ms: seq<Mount>, target: string, i: nat, rest: seq<nat>)
    requires i < |ms| && IsPath(ms, target, rest) && rest[0] in Kids(ms, target, i)
    ensures IsPath(ms, target, [i] + rest)
  {
    var path := [i] + rest;
    forall m | 0 <= m < |path| - 1 ensures path[m + 1] in Kids(ms, target, path[m]) {
      assert m > 0 ==> rest[m - 1 + 1] in Kids(ms, target, rest[m - 1]);
    }
  }

  /** A walk that does not end within a depth goes at least that deep. */
  lemma {:induction false} DeepPath(ms: seq<Mount>, target: string, i: nat, depth: nat) returns (path: seq<nat>)
    requires i < |ms| && Walk(ms, target, i, depth).None?
    ensures IsPath(ms, target, path) && path[0] == i && |path| == depth + 1
    decreases depth
  {
    path := [i];
    if depth > 0 {
      hide Kids, IsPath, Walk;
      var c := EndlessKid(ms, target, i, depth);
      var rest := DeepPath(ms, target, c, depth - 1);
      path := [i] + rest;
      PathCons(ms, target, i, rest);
    }
  }

  /** A walk that does not end fails to end below some child. */
  lemma EndlessKid(ms: seq<Mount>, target: string, i: nat, depth: nat) returns (c: nat)
    requires i < |ms| && depth > 0 && Walk(ms, target, i, depth).None?
    ensures c < |ms| && c in Kids(ms, target, i) && Walk(ms, target, c, depth - 1).None?
  {
    var l := Kids(ms, target, i);
    hide Kids, Covered;
    WalkAllEach(ms, target, l, depth - 1);
    var k :| 0 <= k < |l| && Walk(ms, target, l[k], depth - 1).None?;
    c := l[k];
  }

  lemma {:induction false} Pigeonhole(s: seq<nat>, n: nat) returns (a: nat, b: nat)
    requires |s| > n && forall k :: 0 <= k < |s| ==> s[k] < n
    ensures a < b < |s| && s[a] == s[b]
    decreases n
  {
    var last := |s| - 1;
    if k :| 0 <= k < last && s[k] == s[last] {
      return k, last;
    }
    // Rename n - 1 to the last value, which no earlier position holds.
    var t := seq(last, k requires 0 <= k < last => if s[k] == n - 1 then s[last] else s[k]);
    a, b := Pigeonhole(t, n - 1);
  }

  lemma OneParent(ms: seq<Mount>, target: string, a: nat, b: nat, x: nat)
    requires x in Kids(ms, target, a) && x in Kids(ms, target, b)
    ensures a == b
  {
  }

  /** A path that meets an entry twice starts on a cycle: every entry has one parent. */
  lemma {:induction false} RepeatIsCycle(ms: seq<Mount>, target: string, path: seq<nat>, a: nat, b: nat)
    requires IsPath(ms, target, path) && a < b < |path| && path[a] == path[b]
    ensures OnCycle(ms, target, path[0])
    decreases a
  {
    if a == 0 {
      var loop := path[..b + 1];
      assert IsPathTo(ms, target, loop, path[0], path[0]);
    } else {
      assert path[a - 1 + 1] in Kids(ms, target, path[a - 1]) && path[b - 1 + 1] in Kids(ms, target, path[b - 1]);
      OneParent(ms, target, path[a - 1], path[b - 1], path[a]);
      hide Kids;
      RepeatIsCycle(ms, target, path, a - 1, b - 1);
    }
  }

  /** The walk from an entry ends exactly when the entry is not its own ancestor, whatever cycles
      the rest of the table holds; and then it ends within the size of the table. */
  lemma WalkEndsIff(ms: seq<Mount>, target: string, i: nat)
    requires i < |ms|
    ensures Walk(ms, target, i, |ms|).Some? <==> !OnCycle(ms, target, i)
    ensures (exists depth :: Walk(ms, target, i, depth).Some?) <==> !OnCycle(ms, target, i)
  {
    if OnCycle(ms, target, i) {
      var path :| |path| > 1 && IsPathTo(ms, target, path, i, i);
      forall depth: nat ensures Walk(ms, target, i, depth).None? {
        CycleNeverEnds(ms, target, path, depth);
      }
    } else if Walk(ms, target, i, |ms|).None? {
      var path := DeepPath(ms, target, i, |ms|);
      var a, b := Pigeonhole(path, |ms|);
      RepeatIsCycle(ms, target, path, a, b);
    }
  }

  /** An entry is reached from i when it is i or is reached from a child of i. */
  lemma ReachesStep(ms: seq<Mount>, target: string, i: nat, x: nat)
    requires i < |ms|
    ensures Reaches(ms, target, i, x) <==>
      x == i || exists k :: 0 <= k < |Kids(ms, target, i)| && Reaches(ms, target, Kids(ms, target, i)[k], x)
  {
    var l := Kids(ms, target, i);
    if Reaches(ms, target, i, x) && x != i {
      var path :| IsPathTo(ms, target, path, i, x);
      assert path[0 + 1] in l;
      var k :| 0 <= k < |l| && l[k] == path[1];
      var rest := path[1..];
      forall m | 0 <= m < |rest| - 1 ensures rest[m + 1] in Kids(ms, target, rest[m]) {
        assert path[(m + 1) + 1] in Kids(ms, target, path[m + 1]);
      }
      assert IsPathTo(ms, target, rest, l[k], x);
    }
    if x == i {
      assert IsPathTo(ms, target, [i], i, x);
    }
    if k :| 0 <= k < |l| && Reaches(ms, target, l[k], x) {
      var rest :| IsPathTo(ms, target, rest, l[k], x);
      PathCons(ms, target, i, rest);
      assert IsPathTo(ms, target, [i] + rest, i, x);
    }
  }

  /** A walk meets exactly the entries reached from its start that are not covered. */
  lemma {:induction false} WalkMeets(ms: seq<Mount>, target: string, i: nat, depth: nat, x: nat)
    requires i < |ms| && Walk(ms, target, i, depth).Some?
    ensures x in Walk(ms, target, i, depth).value <==>
      Reaches(ms, target, i, x) && x < |ms| && !Covered(ms, target, x, |ms|)
    decreases depth, 0
  {
    ReachesStep(ms, target, i, x);
    WalkAllMeets(ms, target, Kids(ms, target, i), depth - 1, x);
  }

  lemma {:induction false} WalkAllMeets(ms: seq<Mount>, target: string, l: seq<nat>, depth: nat, x: nat)
    requires Indices(ms, l) && WalkAll(ms, target, l, depth).Some?
    ensures x in WalkAll(ms, target, l, depth).value <==>
      x < |ms| && !Covered(ms, target, x, |ms|) && exists k :: 0 <= k < |l| && Reaches(ms, target, l[k], x)
    decreases depth, 1 + |l|
  {
    if l != [] {
      WalkMeets(ms, target, l[0], depth, x);
      WalkAllMeets(ms, target, l[1..], depth, x);
      assert forall k :: 0 <= k < |l[1..]| ==> l[1..][k] == l[k + 1];
      assert forall k :: 0 < k < |l| ==> l[k] == l[1..][k - 1];
    }
  }

  /** Two paths to one entry: the longer one ends with the shorter one. */
  lemma {:induction false} SharedEnd(ms: seq<Mount>, target: string, p: seq<nat>, q: seq<nat>, back: nat)
    requires IsPath(ms, target, p) && IsPath(ms, target, q) && p[|p| - 1] == q[|q| - 1]
    requires back < |p| <= |q|
    ensures p[|p| - 1 - back] == q[|q| - 1 - back]
  {
    if back > 0 {
      SharedEnd(ms, target, p, q, back - 1);
      var a, b := |p| - 1 - back, |q| - 1 - back;
      assert p[a + 1] in Kids(ms, target, p[a]) && q[b + 1] in Kids(ms, target, q[b]);
      OneParent(ms, target, p[a], q[b], p[a + 1]);
    }
  }

  /** No entry is reached from two siblings, unless their parent is on a cycle. */
  lemma SiblingsApart(ms: seq<Mount>, target: string, i: nat, c: nat, d: nat, x: nat)
    requires i < |ms| && c in Kids(ms, target, i) && d in Kids(ms, target, i) && c != d
    requires Reaches(ms, target, c, x) && Reaches(ms, target, d, x)
    ensures OnCycle(ms, target, i)
  {
    var p :| IsPathTo(ms, target, p, c, x);
    var q :| IsPathTo(ms, target, q, d, x);
    if |p| <= |q| {
      BelowSibling(ms, target, i, p, q);
    } else {
      BelowSibling(ms, target, i, q, p);
    }
  }

  lemma BelowSibling(ms: seq<Mount>, target: string, i: nat, p: seq<nat>, q: seq<nat>)
    requires i < |ms| && IsPath(ms, target, p) && IsPath(ms, target, q) && |p| <= |q| && p[|p| - 1] == q[|q| - 1]
    requires p[0] in Kids(ms, target, i) && q[0] in Kids(ms, target, i) && p[0] != q[0]
    ensures OnCycle(ms, target, i)
  {
    SharedEnd(ms, target, p, q, |p| - 1);
    PathCons(ms, target, i, q);
    var path, at := [i] + q, |q| - |p|;
    assert path[at + 1] == q[at] == p[0];
    assert path[at + 1] in Kids(ms, target, path[at]);
    OneParent(ms, target, i, path[at], p[0]);
    RepeatIsCycle(ms, target, path, 0, at);
  }

  ghost predicate NoDuplicates(s: seq<nat>) {
    forall a, b :: 0 <= a < b < |s| ==> s[a] != s[b]
  }

  lemma AppendOnce(v: seq<nat>, w: seq<nat>)
    requires NoDuplicates(v) && NoDuplicates(w) && forall x :: x in v ==> x !in w
    ensures NoDuplicates(v + w)
  {
    var all := v + w;
    forall a, b | 0 <= a < b < |all| ensures all[a] != all[b] {
      assert a < |v| <= b ==> v[a] in v && w[b - |v|] in w;
    }
  }

  /** The walk of a child meets nothing that the walks of its later siblings meet. */
  lemma WalksApart(ms: seq<Mount>, target: string, i: nat, k: nat, depth: nat, x: nat)
    requires i < |ms| && !OnCycle(ms, target, i) && k < |Kids(ms, target, i)|
    requires Walk(ms, target, Kids(ms, target, i)[k], depth).Some?
    requires WalkAll(ms, target, Kids(ms, target, i)[k + 1..], depth).Some?
    requires x in Walk(ms, target, Kids(ms, target, i)[k], depth).value
    ensures x !in WalkAll(ms, target, Kids(ms, target, i)[k + 1..], depth).value
  {
    var l := Kids(ms, target, i);
    var rest := l[k + 1..];
    WalkMeets(ms, target, l[k], depth, x);
    WalkAllMeets(ms, target, rest, depth, x);
    forall m | 0 <= m < |rest| ensures !Reaches(ms, target, rest[m], x) {
      assert rest[m] == l[k + 1 + m];
      if Reaches(ms, target, rest[m], x) {
        SiblingsApart(ms, target, i, l[k], rest[m], x);
      }
    }
  }

  lemma {:induction false} WalkAllOnce(ms: seq<Mount>, target: string, i: nat, from: nat, depth: nat)
    requires i < |ms| && !OnCycle(ms, target, i) && from <= |Kids(ms, target, i)|
    requires WalkAll(ms, target, Kids(ms, target, i)[from..], depth).Some?
    ensures NoDuplicates(WalkAll(ms, target, Kids(ms, target, i)[from..], depth).value)
    decreases depth, 1 + |Kids(ms, target, i)| - from
  {
    var l := Kids(ms, target, i);
    if from < |l| {
      assert l[from..][1..] == l[from + 1..] && l[from..][0] == l[from];
      var v, w := Walk(ms, target, l[from], depth), WalkAll(ms, target, l[from + 1..], depth);
      assert v.Some? && w.Some? && WalkAll(ms, target, l[from..], depth).value == v.value + w.value;
      hide WalkAll;
      hide Walk;
      hide Kids;
      hide OnCycle;
      hide NoDuplicates;
      WalkOnce(ms, target, l[from], depth);
      WalkAllOnce(ms, target, i, from + 1, depth);
      forall x | x in v.value ensures x !in w.value {
        WalksApart(ms, target, i, from, depth, x);
      }
      AppendOnce(v.value, w.value);
    }
  }

  lemma ReturnIsCycle(ms: seq<Mount>, target: string, i: nat, k: nat)
    requires i < |ms| && k < |Kids(ms, target, i)| && Reaches(ms, target, Kids(ms, target, i)[k], i)
    ensures OnCycle(ms, target, i)
  {
    var p :| IsPathTo(ms, target, p, Kids(ms, target, i)[k], i);
    PathCons(ms, target, i, p);
    assert IsPathTo(ms, target, [i] + p, i, i);
  }

  /** An entry off every cycle is not reached from its children. */
  lemma NotBelowItself(ms: seq<Mount>, target: string, i: nat, depth: nat)
    requires i < |ms| && !OnCycle(ms, target, i) && WalkAll(ms, target, Kids(ms, target, i), depth).Some?
    ensures i !in WalkAll(ms, target, Kids(ms, target, i), depth).value
  {
    var l := Kids(ms, target, i);
    WalkAllMeets(ms, target, l, depth, i);
    forall k | 0 <= k < |l| ensures !Reaches(ms, target, l[k], i) {
      if Reaches(ms, target, l[k], i) {
        ReturnIsCycle(ms, target, i, k);
      }
    }
  }

  /** A walk that ends meets no entry twice. */
  lemma {:induction false} WalkOnce(ms: seq<Mount>, target: string, i: nat, depth: nat)
    requires i < |ms| && Walk(ms, target, i, depth).Some?
    ensures NoDuplicates(Walk(ms, target, i, depth).value)
    decreases depth, 0
  {
    hide WalkAll, Kids, Covered, OnCycle, Reaches;
    var l := Kids(ms, target, i);
    assert l[0..] == l;
    WalkEndsIff(ms, target, i);
    var w := WalkAll(ms, target, l, depth - 1).value;
    NotBelowItself(ms, target, i, depth - 1);
    WalkAllOnce(ms, target, i, 0, depth - 1);
    var self := if Covered(ms, target, i, |ms|) then [] else [i];
    assert Walk(ms, target, i, depth).value == self + w;
    hide Walk;
    AppendOnce(self, w);
  }
}

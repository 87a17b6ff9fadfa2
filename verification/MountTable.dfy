/** The order theory behind the mount hierarchy: which entries of a mount table are children of
    which, stated without reference to how the child lists are built. */
module MountTable {
  import opened Wrappers

  /** The part of a mount table entry the hierarchy depends on; clean is its cleaned target. */
  datatype Mount = Mount(id: int, parent: int, clean: string)

  /** The last entry with the given identifier. */
  function Last(ms: seq<Mount>, id: int): (r: Option<nat>)
    ensures r.Some? ==> r.value < |ms| && ms[r.value].id == id
    ensures r.Some? ==> forall i :: r.value < i < |ms| ==> ms[i].id != id
    ensures r.None? ==> forall i :: 0 <= i < |ms| ==> ms[i].id != id
  {
    if ms == [] then None
    else if ms[|ms| - 1].id == id then Some(|ms| - 1)
    else Last(ms[..|ms| - 1], id)
  }

  /** Entry i names entry p as its parent and extends the target. */
  predicate Candidate(ms: seq<Mount>, target: string, p: nat, i: nat)
    requires i < |ms|
  {
    Last(ms, ms[i].parent) == Some(p) && target <= ms[i].clean
  }

  /** Among the first n entries, i is a candidate below which there is no other: no candidate has a
      proper prefix of its path, and it is the first with its path. */
  ghost predicate Minimal(ms: seq<Mount>, target: string, p: nat, n: nat, i: nat)
    requires n <= |ms|
  {
    && i < n && Candidate(ms, target, p, i)
    && forall j :: 0 <= j < n && j != i && Candidate(ms, target, p, j) && ms[j].clean <= ms[i].clean
        ==> ms[j].clean == ms[i].clean && i < j
  }

  /** l holds exactly the minimal candidates up to index k, in table order. */
  ghost predicate Selects(ms: seq<Mount>, target: string, p: nat, n: nat, k: nat, l: seq<nat>)
    requires k <= n <= |ms|
  {
    && (forall i: nat :: i in l <==> i < k && Minimal(ms, target, p, n, i))
    && (forall b :: 0 <= b < |l| ==> l[b] < k)
    && (forall a, b :: 0 <= a < b < |l| ==> l[a] < l[b])
  }

  /** The minimal candidates among the first n entries, in table order, up to index k. */
  ghost function ChildrenUpTo(ms: seq<Mount>, target: string, p: nat, n: nat, k: nat): (l: seq<nat>)
    requires k <= n <= |ms|
    ensures Selects(ms, target, p, n, k, l)
    ensures Indices(ms, l)
  {
    if k == 0 then []
    else
      var l := ChildrenUpTo(ms, target, p, n, k - 1);
      if Minimal(ms, target, p, n, k - 1) then l + [k - 1] else l
  }

  ghost function Children(ms: seq<Mount>, target: string, p: nat, n: nat): seq<nat>
    requires n <= |ms|
  {
    ChildrenUpTo(ms, target, p, n, n)
  }

  /** Entry p is covered when a candidate child has its path. */
  ghost predicate Covered(ms: seq<Mount>, target: string, p: nat, n: nat)
    requires p < |ms| && n <= |ms|
  {
    exists j :: 0 <= j < n && Candidate(ms, target, p, j) && ms[j].clean == ms[p].clean
  }

  predicate Indices(ms: seq<Mount>, l: seq<nat>) {
    forall k :: 0 <= k < |l| ==> l[k] < |ms|
  }

  /** The part of a sibling list that survives the arrival of c. */
  function Uncovered(ms: seq<Mount>, l: seq<nat>, c: nat): (r: seq<nat>)
    requires c < |ms| && Indices(ms, l)
    ensures Indices(ms, r)
    ensures forall k :: 0 <= k < |r| ==> r[k] in l
  {
    if l == [] then []
    else
      var rest := Uncovered(ms, l[..|l| - 1], c);
      if ms[c].clean <= ms[l[|l| - 1]].clean then rest else rest + [l[|l| - 1]]
  }

  predicate HasCover(ms: seq<Mount>, l: seq<nat>, c: nat)
    requires c < |ms| && Indices(ms, l)
  {
    exists k :: 0 <= k < |l| && ms[l[k]].clean <= ms[c].clean
  }

  /** A sibling list after c arrives: unchanged if a sibling covers c, otherwise without the
      siblings c covers and with c at its end. */
  function Insert(ms: seq<Mount>, l: seq<nat>, c: nat): seq<nat>
    requires c < |ms| && Indices(ms, l)
  {
    if HasCover(ms, l, c) then l else Uncovered(ms, l, c) + [c]
  }

  lemma PrefixTransitive(a: string, b: string, c: string)
    requires a <= b && b <= c
    ensures a <= c
  {
  }

  /** Below every candidate there is a minimal one. */
  lemma SomeMinimal(ms: seq<Mount>, target: string, p: nat, n: nat, i: nat) returns (m: nat)
    requires i < n <= |ms| && Candidate(ms, target, p, i)
    ensures Minimal(ms, target, p, n, m) && ms[m].clean <= ms[i].clean
    decreases |ms[i].clean|, i
  {
    m := i;
    if !Minimal(ms, target, p, n, i) {
      var j :| 0 <= j < n && j != i && Candidate(ms, target, p, j) && ms[j].clean <= ms[i].clean
        && !(ms[j].clean == ms[i].clean && i < j);
      assert |ms[j].clean| == |ms[i].clean| ==> ms[j].clean == ms[i].clean;
      m := SomeMinimal(ms, target, p, n, j);
      PrefixTransitive(ms[m].clean, ms[j].clean, ms[i].clean);
    }
  }

  lemma MinimalStep(ms: seq<Mount>, target: string, p: nat, n: nat, i: nat)
    requires i < n < |ms|
    ensures Minimal(ms, target, p, n + 1, i) <==>
      Minimal(ms, target, p, n, i) &&
      !(Candidate(ms, target, p, n) && ms[n].clean <= ms[i].clean && ms[n].clean != ms[i].clean)
  {
  }

  /** An entry some sibling covers removes nobody: siblings are an antichain. */
  lemma CoveredArrival(ms: seq<Mount>, target: string, p: nat, n: nat, c: nat)
    requires n < |ms| && c in Children(ms, target, p, n) && ms[c].clean <= ms[n].clean
    ensures !Minimal(ms, target, p, n + 1, n)
    ensures forall i: nat | i < n :: Minimal(ms, target, p, n, i) <==> Minimal(ms, target, p, n + 1, i)
  {
    forall i: nat | i < n && Minimal(ms, target, p, n, i) ensures Minimal(ms, target, p, n + 1, i) {
      if ms[n].clean <= ms[i].clean {
        PrefixTransitive(ms[c].clean, ms[n].clean, ms[i].clean);
      }
    }
  }

  /** An entry some candidate covers is covered by a sibling already in the list. */
  lemma SiblingCovers(ms: seq<Mount>, target: string, p: nat, n: nat, j: nat)
    requires j < n < |ms| && Candidate(ms, target, p, j) && ms[j].clean <= ms[n].clean
    ensures HasCover(ms, Children(ms, target, p, n), n)
  {
    var m := SomeMinimal(ms, target, p, n, j);
    PrefixTransitive(ms[m].clean, ms[j].clean, ms[n].clean);
    var l := Children(ms, target, p, n);
    var k :| 0 <= k < |l| && l[k] == m;
  }

  /** The arrival of entry n turns the minimal candidates below n into those below n + 1. */
  lemma InsertIsNext(ms: seq<Mount>, target: string, p: nat, n: nat)
    requires n < |ms|
    ensures Children(ms, target, p, n + 1) ==
      if Candidate(ms, target, p, n) then Insert(ms, Children(ms, target, p, n), n)
      else Children(ms, target, p, n)
  {
    var l := Children(ms, target, p, n);
    if !Candidate(ms, target, p, n) {
      StrangerArrival(ms, target, p, n);
    } else if HasCover(ms, l, n) {
      var k :| 0 <= k < |l| && ms[l[k]].clean <= ms[n].clean;
      CoveredArrival(ms, target, p, n, l[k]);
      hide Minimal, Candidate;
      SameUpTo(ms, target, p, n, n);
    } else {
      UncoveredArrival(ms, target, p, n);
    }
  }

  lemma StrangerArrival(ms: seq<Mount>, target: string, p: nat, n: nat)
    requires n < |ms| && !Candidate(ms, target, p, n)
    ensures Children(ms, target, p, n + 1) == Children(ms, target, p, n)
  {
    forall i: nat | i < n ensures Minimal(ms, target, p, n, i) <==> Minimal(ms, target, p, n + 1, i) {
      MinimalStep(ms, target, p, n, i);
    }
    assert !Minimal(ms, target, p, n + 1, n);
    hide Minimal;
    SameUpTo(ms, target, p, n, n);
  }

  lemma UncoveredArrival(ms: seq<Mount>, target: string, p: nat, n: nat)
    requires n < |ms| && Candidate(ms, target, p, n) && !HasCover(ms, Children(ms, target, p, n), n)
    ensures Children(ms, target, p, n + 1) == Uncovered(ms, Children(ms, target, p, n), n) + [n]
  {
    forall j | 0 <= j < n && Candidate(ms, target, p, j) ensures !(ms[j].clean <= ms[n].clean) {
      if ms[j].clean <= ms[n].clean {
        SiblingCovers(ms, target, p, n, j);
      }
    }
    assert Minimal(ms, target, p, n + 1, n);
    hide Minimal;
    FilterUpTo(ms, target, p, n, n);
  }

  lemma {:induction false} SameUpTo(ms: seq<Mount>, target: string, p: nat, n: nat, k: nat)
    requires k <= n < |ms|
    requires forall i: nat | i < k :: Minimal(ms, target, p, n, i) <==> Minimal(ms, target, p, n + 1, i)
    ensures ChildrenUpTo(ms, target, p, n + 1, k) == ChildrenUpTo(ms, target, p, n, k)
  {
    if k > 0 {
      SameUpTo(ms, target, p, n, k - 1);
    }
  }

  lemma UncoveredLast(ms: seq<Mount>, l: seq<nat>, more: bool, x: nat, c: nat)
    requires c < |ms| && x < |ms| && Indices(ms, l)
    ensures Uncovered(ms, if more then l + [x] else l, c) ==
      if more && !(ms[c].clean <= ms[x].clean) then Uncovered(ms, l, c) + [x] else Uncovered(ms, l, c)
  {
    assert (l + [x])[..|l|] == l;
  }

  /** No candidate before entry n covers it. */
  ghost predicate NoneCovers(ms: seq<Mount>, target: string, p: nat, n: nat)
    requires n < |ms|
  {
    forall j | 0 <= j < n && Candidate(ms, target, p, j) :: !(ms[j].clean <= ms[n].clean)
  }

  lemma FilterStep(ms: seq<Mount>, target: string, p: nat, n: nat, i: nat)
    requires i < n < |ms| && Candidate(ms, target, p, n)
    requires NoneCovers(ms, target, p, n)
    ensures Minimal(ms, target, p, n + 1, i) <==> Minimal(ms, target, p, n, i) && !(ms[n].clean <= ms[i].clean)
  {
    MinimalStep(ms, target, p, n, i);
    if Minimal(ms, target, p, n, i) {
      assert Candidate(ms, target, p, i);
      assert ms[n].clean != ms[i].clean;
    }
    hide Minimal;
  }

  lemma {:induction false} FilterUpTo(ms: seq<Mount>, target: string, p: nat, n: nat, k: nat)
    requires k <= n < |ms| && Candidate(ms, target, p, n)
    requires NoneCovers(ms, target, p, n)
    ensures ChildrenUpTo(ms, target, p, n + 1, k) == Uncovered(ms, ChildrenUpTo(ms, target, p, n, k), n)
  {
    hide Minimal, Candidate, NoneCovers, Selects, Indices;
    if k > 0 {
      hide Uncovered;
      FilterUpTo(ms, target, p, n, k - 1);
      FilterStep(ms, target, p, n, k - 1);
      UncoveredLast(ms, ChildrenUpTo(ms, target, p, n, k - 1), Minimal(ms, target, p, n, k - 1), k - 1, n);
    }
  }
}

/** The mount hierarchy as linked nodes: each node has a first child and a next sibling, and lists
    are edited in place through the slot that points at the current sibling. */
module Unfold {
  import opened Wrappers
  import opened MountEntry
  import opened MountTable

  class MountInfoNode {
    const entry: MountInfoEntry
    const clean: string
    ghost const index: nat
    var firstChild: MountInfoNode?
    var nextSibling: MountInfoNode?
    var covered: bool

    constructor (entry: MountInfoEntry, clean: string, ghost index: nat)
      ensures this.entry == entry && this.clean == clean && this.index == index
      ensures firstChild == null && nextSibling == null && !covered
    {
      this.entry, this.clean, this.index := entry, clean, index;
      firstChild, nextSibling, covered := null, null, false;
    }
  }

  /** Where a pointer to a sibling is stored: in the parent or in the previous sibling. */
  datatype Slot = FirstChild(parent: MountInfoNode) | NextSibling(previous: MountInfoNode)

  /** The table of the entries, their targets cleaned by the given function. */
  function Table(entries: seq<MountInfoEntry>, clean: string -> string): (ms: seq<Mount>)
    ensures |ms| == |entries|
  {
    seq(|entries|, i requires 0 <= i < |entries| =>
      Mount(entries[i].id, entries[i].parent, clean(entries[i].target)))
  }

  /** Each node knows its index, so no two are the same. */
  ghost predicate Indexed(nodes: seq<MountInfoNode>) {
    forall i :: 0 <= i < |nodes| ==> nodes[i].index == i
  }

  /** The nodes represent the table, one node per entry. */
  ghost predicate Represents(nodes: seq<MountInfoNode>, ms: seq<Mount>) {
    && |nodes| == |ms|
    && Indexed(nodes)
    && (forall i :: 0 <= i < |nodes| ==>
      nodes[i].entry.id == ms[i].id && nodes[i].entry.parent == ms[i].parent && nodes[i].clean == ms[i].clean)
  }

  /** The node at position k of a list, or what follows the list. */
  ghost function At(nodes: seq<MountInfoNode>, l: seq<nat>, k: nat, tail: MountInfoNode?): MountInfoNode? {
    if k < |l| && l[k] < |nodes| then nodes[l[k]] else tail
  }

  ghost function Siblings(nodes: seq<MountInfoNode>, l: seq<nat>): set<MountInfoNode> {
    set k | 0 <= k < |l| && l[k] < |nodes| :: nodes[l[k]]
  }

  /** From position j on, each node of l links to the next and the last one to tail. */
  ghost predicate Links(nodes: seq<MountInfoNode>, l: seq<nat>, j: nat, tail: MountInfoNode?)
    reads Siblings(nodes, l)`nextSibling
  {
    forall k: nat :: j <= k < |l| ==> l[k] < |nodes| && nodes[l[k]].nextSibling == At(nodes, l, k + 1, tail)
  }

  /** The sibling list from head consists of the nodes with the given indices, in order. */
  ghost predicate IsList(nodes: seq<MountInfoNode>, head: MountInfoNode?, l: seq<nat>)
    reads Siblings(nodes, l)`nextSibling
  {
    head == At(nodes, l, 0, null) && Links(nodes, l, 0, null)
  }

  /** The sibling list from head consists of the kept nodes followed by those of l from j on. */
  ghost predicate IsPartial(nodes: seq<MountInfoNode>, head: MountInfoNode?, kept: seq<nat>, l: seq<nat>, j: nat)
    reads Siblings(nodes, kept)`nextSibling, Siblings(nodes, l)`nextSibling
  {
    var rest := At(nodes, l, j, null);
    head == At(nodes, kept, 0, rest) && Links(nodes, kept, 0, rest) && Links(nodes, l, j, null)
  }

  ghost predicate Sorted(l: seq<nat>) {
    forall a, b :: 0 <= a < b < |l| ==> l[a] < l[b]
  }

  function Parents(slot: Slot): set<MountInfoNode> {
    if slot.FirstChild? then {slot.parent} else {}
  }

  function Previous(slot: Slot): set<MountInfoNode> {
    if slot.NextSibling? then {slot.previous} else {}
  }

  method Store(slot: Slot, v: MountInfoNode?)
    modifies Parents(slot)`firstChild, Previous(slot)`nextSibling
    ensures if slot.FirstChild? then slot.parent.firstChild == v else slot.previous.nextSibling == v
  {
    match slot
    case FirstChild(parent) => parent.firstChild := v;
    case NextSibling(previous) => previous.nextSibling := v;
  }

  /** The slot after the siblings in kept. */
  ghost predicate IsSlot(slot: Slot, nodes: seq<MountInfoNode>, parent: MountInfoNode, kept: seq<nat>) {
    && (forall k :: 0 <= k < |kept| ==> kept[k] < |nodes|)
    && slot == if kept == [] then FirstChild(parent) else NextSibling(nodes[kept[|kept| - 1]])
  }

  lemma UncoveredSnoc(ms: seq<Mount>, l: seq<nat>, j: nat, c: nat)
    requires c < |ms| && Indices(ms, l) && j < |l|
    ensures Uncovered(ms, l[..j + 1], c) ==
      if ms[c].clean <= ms[l[j]].clean then Uncovered(ms, l[..j], c) else Uncovered(ms, l[..j], c) + [l[j]]
  {
    assert l[..j + 1][..j] == l[..j];
  }

  lemma {:induction false} UncoveredAll(ms: seq<Mount>, l: seq<nat>, c: nat)
    requires c < |ms| && Indices(ms, l)
    requires forall k :: 0 <= k < |l| ==> !(ms[c].clean <= ms[l[k]].clean)
    ensures Uncovered(ms, l, c) == l
  {
    if l != [] {
      UncoveredAll(ms, l[..|l| - 1], c);
    }
  }

  /** No sibling covers another. */
  ghost predicate Antichain(ms: seq<Mount>, l: seq<nat>)
    requires Indices(ms, l)
  {
    forall a, b :: 0 <= a < |l| && 0 <= b < |l| && a != b ==> !(ms[l[a]].clean <= ms[l[b]].clean)
  }

  /** Takes sibling j out of the list, through the slot that points at it. */
  method Unlink(slot: Slot, s: MountInfoNode, parent: MountInfoNode,
                ghost nodes: seq<MountInfoNode>, ghost kept: seq<nat>, ghost l: seq<nat>, ghost j: nat)
    requires Indexed(nodes) && parent in nodes && Sorted(l) && Sorted(kept)
    requires j < |l| && (kept != [] ==> kept[|kept| - 1] < l[j])
    requires IsPartial(nodes, parent.firstChild, kept, l, j)
    requires IsSlot(slot, nodes, parent, kept) && s == At(nodes, l, j, null)
    modifies Parents(slot)`firstChild, Previous(slot)`nextSibling
    ensures IsPartial(nodes, parent.firstChild, kept, l, j + 1)
    ensures s.nextSibling == At(nodes, l, j + 1, null)
  {
    Store(slot, s.nextSibling);
  }

  /** Stores cur at the end of the list, through the slot that holds its end. */
  method Append(slot: Slot, cur: MountInfoNode, parent: MountInfoNode,
                ghost nodes: seq<MountInfoNode>, ghost kept: seq<nat>, ghost c: nat)
    requires Indexed(nodes)
    requires parent in nodes && IsList(nodes, parent.firstChild, kept) && Sorted(kept) && c !in kept
    requires IsSlot(slot, nodes, parent, kept) && c < |nodes| && cur == nodes[c] && cur.nextSibling == null
    modifies Parents(slot)`firstChild, Previous(slot)`nextSibling
    ensures IsList(nodes, parent.firstChild, kept + [c])
  {
    Store(slot, cur);
  }

  lemma Ends(nodes: seq<MountInfoNode>, head: MountInfoNode?, l: seq<nat>, kept: seq<nat>)
    ensures IsList(nodes, head, l) <==> IsPartial(nodes, head, [], l, 0)
    ensures IsPartial(nodes, head, kept, l, |l|) <==> IsList(nodes, head, kept)
  {
  }

  lemma SortedSnoc(l: seq<nat>, x: nat)
    requires Sorted(l) && (l != [] ==> l[|l| - 1] < x)
    ensures Sorted(l + [x])
  {
  }

  lemma PrefixIsWhole(nodes: seq<MountInfoNode>, head: MountInfoNode?, l: seq<nat>, j: nat)
    requires j < |l| && IsPartial(nodes, head, l[..j], l, j)
    ensures IsList(nodes, head, l)
  {
    var kept, rest := l[..j], At(nodes, l, j, null);
    assert Links(nodes, l, j, null);
    forall k: nat | k < |l| ensures l[k] < |nodes| && nodes[l[k]].nextSibling == At(nodes, l, k + 1, null) {
      if k < j {
        assert kept[k] == l[k] && nodes[kept[k]].nextSibling == At(nodes, kept, k + 1, rest);
        assert k + 1 < j ==> kept[k + 1] == l[k + 1];
      }
    }
  }

  lemma KeepOne(nodes: seq<MountInfoNode>, head: MountInfoNode?, kept: seq<nat>, l: seq<nat>, j: nat)
    requires j < |l| && IsPartial(nodes, head, kept, l, j)
    ensures IsPartial(nodes, head, kept + [l[j]], l, j + 1)
    ensures l[j] < |nodes| && nodes[l[j]].nextSibling == At(nodes, l, j + 1, null)
  {
    var more, rest := kept + [l[j]], At(nodes, l, j + 1, null);
    forall k: nat | k < |more|
      ensures more[k] < |nodes| && nodes[more[k]].nextSibling == At(nodes, more, k + 1, rest)
    {
      if k < |kept| {
        assert more[k] == kept[k];
        assert nodes[kept[k]].nextSibling == At(nodes, kept, k + 1, At(nodes, l, j, null));
        assert k + 1 < |kept| ==> more[k + 1] == kept[k + 1];
      }
    }
  }

  /** The list is the siblings in kept, followed by those of l from j on, and slot follows kept. */
  ghost predicate Keeping(nodes: seq<MountInfoNode>, parent: MountInfoNode, slot: Slot,
                          l: seq<nat>, j: nat, kept: seq<nat>)
    requires j <= |l|
    reads parent, Siblings(nodes, kept)`nextSibling, Siblings(nodes, l)`nextSibling
  {
    && Sorted(kept) && (kept != [] && j < |l| ==> kept[|kept| - 1] < l[j])
    && IsSlot(slot, nodes, parent, kept)
    && IsPartial(nodes, parent.firstChild, kept, l, j)
    && Parents(slot) <= {parent} && Previous(slot) <= Siblings(nodes, l)
  }

  lemma KeepNext(nodes: seq<MountInfoNode>, parent: MountInfoNode, slot: Slot, l: seq<nat>, j: nat, kept: seq<nat>)
    requires j < |l| && Sorted(l) && l[j] < |nodes| && Keeping(nodes, parent, slot, l, j, kept)
    ensures Keeping(nodes, parent, NextSibling(nodes[l[j]]), l, j + 1, kept + [l[j]])
  {
    KeepOne(nodes, parent.firstChild, kept, l, j);
    SortedSnoc(kept, l[j]);
    assert nodes[l[j]] in Siblings(nodes, l);
    hide IsPartial;
  }

  /** The state of a walk over the siblings l on behalf of entry c: j of them have been visited, the
      list is what is kept of these followed by the rest, and slot follows what is kept. */
  ghost predicate Walked(nodes: seq<MountInfoNode>, ms: seq<Mount>, parent: MountInfoNode, slot: Slot,
                         c: nat, l: seq<nat>, j: nat)
    reads parent, nodes
  {
    && Represents(nodes, ms) && parent in nodes && c < |ms| && Indices(ms, l) && Sorted(l) && j <= |l|
    && Keeping(nodes, parent, slot, l, j, Uncovered(ms, l[..j], c))
  }

  lemma KeepSibling(nodes: seq<MountInfoNode>, ms: seq<Mount>, parent: MountInfoNode, slot: Slot,
                    c: nat, l: seq<nat>, j: nat)
    requires Walked(nodes, ms, parent, slot, c, l, j) && j < |l| && !(ms[c].clean <= ms[l[j]].clean)
    ensures Walked(nodes, ms, parent, NextSibling(nodes[l[j]]), c, l, j + 1)
  {
    var kept := Uncovered(ms, l[..j], c);
    UncoveredSnoc(ms, l, j, c);
    KeepNext(nodes, parent, slot, l, j, kept);
  }

  method DropSibling(slot: Slot, s: MountInfoNode, parent: MountInfoNode,
                     ghost nodes: seq<MountInfoNode>, ghost ms: seq<Mount>, ghost c: nat, ghost l: seq<nat>,
                     ghost j: nat)
    requires Walked(nodes, ms, parent, slot, c, l, j) && j < |l| && ms[c].clean <= ms[l[j]].clean
    requires s == At(nodes, l, j, null)
    modifies Parents(slot)`firstChild, Previous(slot)`nextSibling
    ensures Walked(nodes, ms, parent, slot, c, l, j + 1)
    ensures s.nextSibling == At(nodes, l, j + 1, null)
  {
    UncoveredSnoc(ms, l, j, c);
    Unlink(slot, s, parent, nodes, Uncovered(ms, l[..j], c), l, j);
  }

  /** What is known of the sibling being visited, and of the slot. */
  lemma Visited(nodes: seq<MountInfoNode>, ms: seq<Mount>, parent: MountInfoNode, slot: Slot,
                c: nat, l: seq<nat>, j: nat)
    requires Walked(nodes, ms, parent, slot, c, l, j)
    ensures c < |ms| && Indices(ms, l) && j <= |l| && Parents(slot) <= {parent} && Previous(slot) <= Siblings(nodes, l)
    ensures j < |l| ==>
      l[j] < |nodes| && nodes[l[j]].clean == ms[l[j]].clean && nodes[l[j]].nextSibling == At(nodes, l, j + 1, null)
    ensures At(nodes, l, j, null) == if j < |l| then nodes[l[j]] else null
  {
  }

  /** Once a sibling that covers c is met the list is the original one. */
  lemma Covers(nodes: seq<MountInfoNode>, ms: seq<Mount>, parent: MountInfoNode, slot: Slot,
               c: nat, l: seq<nat>, j: nat)
    requires Walked(nodes, ms, parent, slot, c, l, j) && Antichain(ms, l) && j < |l| && ms[l[j]].clean <= ms[c].clean
    ensures HasCover(ms, l, c) && IsList(nodes, parent.firstChild, l)
  {
    AntichainKeeps(ms, l, j, c);
    PrefixIsWhole(nodes, parent.firstChild, l, j);
  }

  lemma Begin(nodes: seq<MountInfoNode>, ms: seq<Mount>, parent: MountInfoNode, c: nat, l: seq<nat>)
    requires Represents(nodes, ms) && parent in nodes && c < |ms| && Indices(ms, l) && Sorted(l)
    requires IsList(nodes, parent.firstChild, l)
    ensures Walked(nodes, ms, parent, FirstChild(parent), c, l, 0)
    ensures parent.firstChild == At(nodes, l, 0, null)
  {
    Ends(nodes, parent.firstChild, l, []);
  }

  /** Unlinks a sibling that cur covers, and moves the slot past any other. */
  method PassSibling(slot: Slot, s: MountInfoNode, cur: MountInfoNode, parent: MountInfoNode,
                     ghost nodes: seq<MountInfoNode>, ghost ms: seq<Mount>, ghost c: nat, ghost l: seq<nat>,
                     ghost j: nat)
    returns (next: Slot)
    requires Walked(nodes, ms, parent, slot, c, l, j) && j < |l|
    requires s == At(nodes, l, j, null) && cur.clean == ms[c].clean
    modifies Parents(slot)`firstChild, Previous(slot)`nextSibling
    ensures Walked(nodes, ms, parent, next, c, l, j + 1)
    ensures s.nextSibling == At(nodes, l, j + 1, null)
  {
    Visited(nodes, ms, parent, slot, c, l, j);
    hide Walked;
    if cur.clean <= s.clean {
      DropSibling(slot, s, parent, nodes, ms, c, l, j);
      next := slot;
    } else {
      KeepSibling(nodes, ms, parent, slot, c, l, j);
      next := NextSibling(s);
    }
  }

  /** Walks the children of parent up to a sibling that covers cur, or to the end, unlinking on the
      way the siblings that cur covers; slot then holds the end of the list. */
  method UnlinkCovered(parent: MountInfoNode, cur: MountInfoNode, ghost nodes: seq<MountInfoNode>,
                       ghost ms: seq<Mount>, ghost c: nat, ghost l: seq<nat>) returns (covered: bool, slot: Slot)
    requires Walked(nodes, ms, parent, FirstChild(parent), c, l, 0) && cur.clean == ms[c].clean && Antichain(ms, l)
    modifies parent`firstChild, Siblings(nodes, l)`nextSibling
    ensures c < |ms| && Indices(ms, l) && (covered <==> HasCover(ms, l, c))
    ensures if covered then IsList(nodes, parent.firstChild, l) else Walked(nodes, ms, parent, slot, c, l, |l|)
  {
    hide *;
    slot := FirstChild(parent);
    Started(nodes, ms, parent, c, l);
    Visited(nodes, ms, parent, slot, c, l, 0);
    var s := parent.firstChild;
    ghost var j := 0;
    NoneYet(ms, l, c);
    while s != null
      invariant j <= |l| && c < |ms| && Indices(ms, l) && Walked(nodes, ms, parent, slot, c, l, j)
      invariant s == At(nodes, l, j, null)
      invariant NoneOfFirst(ms, l, j, c)
      decreases |l| - j
    {
      Visited(nodes, ms, parent, slot, c, l, j);
      if s.clean <= cur.clean {
        Covers(nodes, ms, parent, slot, c, l, j);
        return true, slot;
      }
      OneMore(ms, l, j, c);
      slot := PassSibling(slot, s, cur, parent, nodes, ms, c, l, j);
      s := s.nextSibling;
      j := j + 1;
    }
    Visited(nodes, ms, parent, slot, c, l, j);
    NoneAtAll(ms, l, c);
    covered := false;
  }

  lemma Started(nodes: seq<MountInfoNode>, ms: seq<Mount>, parent: MountInfoNode, c: nat, l: seq<nat>)
    requires Walked(nodes, ms, parent, FirstChild(parent), c, l, 0)
    ensures parent.firstChild == At(nodes, l, 0, null)
  {
    assert l[..0] == [];
  }

  /** None of the first j siblings covers c. */
  ghost predicate NoneOfFirst(ms: seq<Mount>, l: seq<nat>, j: nat, c: nat)
    requires c < |ms| && Indices(ms, l) && j <= |l|
  {
    forall k :: 0 <= k < j ==> !(ms[l[k]].clean <= ms[c].clean)
  }

  lemma NoneYet(ms: seq<Mount>, l: seq<nat>, c: nat)
    requires c < |ms| && Indices(ms, l)
    ensures NoneOfFirst(ms, l, 0, c)
  {
  }

  lemma OneMore(ms: seq<Mount>, l: seq<nat>, j: nat, c: nat)
    requires c < |ms| && Indices(ms, l) && j < |l| && NoneOfFirst(ms, l, j, c) && !(ms[l[j]].clean <= ms[c].clean)
    ensures NoneOfFirst(ms, l, j + 1, c)
  {
  }

  lemma NoneAtAll(ms: seq<Mount>, l: seq<nat>, c: nat)
    requires c < |ms| && Indices(ms, l) && NoneOfFirst(ms, l, |l|, c)
    ensures !HasCover(ms, l, c)
  {
  }

  /** Appends cur to the children of parent unless a sibling covers it, unlinking the siblings that
      cur covers. */
  method InsertChild(parent: MountInfoNode, cur: MountInfoNode,
                     ghost nodes: seq<MountInfoNode>, ghost ms: seq<Mount>, ghost c: nat, ghost l: seq<nat>)
    requires Represents(nodes, ms) && c < |ms| && nodes[c] == cur && parent in nodes
    requires Indices(ms, l) && Sorted(l) && c !in l && Antichain(ms, l)
    requires IsList(nodes, parent.firstChild, l) && cur.nextSibling == null
    modifies parent`firstChild, Siblings(nodes, l)`nextSibling
    ensures IsList(nodes, parent.firstChild, Insert(ms, l, c))
  {
    Begin(nodes, ms, parent, c, l);
    assert cur !in Siblings(nodes, l);
    hide Walked;
    hide IsList;
    hide Antichain;
    hide HasCover;
    hide Uncovered;
    var covered, slot := UnlinkCovered(parent, cur, nodes, ms, c, l);
    if !covered {
      Finish(nodes, ms, parent, slot, c, l);
      Append(slot, cur, parent, nodes, Uncovered(ms, l, c), c);
    }
  }

  /** A completed walk leaves the list of what is kept, with slot at its end. */
  lemma Finish(nodes: seq<MountInfoNode>, ms: seq<Mount>, parent: MountInfoNode, slot: Slot, c: nat, l: seq<nat>)
    requires Walked(nodes, ms, parent, slot, c, l, |l|) && c !in l
    ensures var kept := Uncovered(ms, l, c);
      IsSlot(slot, nodes, parent, kept) && IsList(nodes, parent.firstChild, kept) && Sorted(kept) && c !in kept
    ensures Parents(slot) <= {parent} && Previous(slot) <= Siblings(nodes, l)
  {
    assert l[..|l|] == l;
    Ends(nodes, parent.firstChild, l, Uncovered(ms, l, c));
  }

  /** Until a covering sibling is met, none has been unlinked. */
  lemma AntichainKeeps(ms: seq<Mount>, l: seq<nat>, j: nat, c: nat)
    requires c < |ms| && Indices(ms, l) && Antichain(ms, l) && j < |l| && ms[l[j]].clean <= ms[c].clean
    ensures Uncovered(ms, l[..j], c) == l[..j] && HasCover(ms, l, c)
  {
    forall k | 0 <= k < j ensures !(ms[c].clean <= ms[l[..j][k]].clean) {
      if ms[c].clean <= ms[l[k]].clean {
        PrefixTransitive(ms[l[j]].clean, ms[c].clean, ms[l[k]].clean);
      }
    }
    UncoveredAll(ms, l[..j], c);
  }

  /** Child lists hold the minimal candidates among the first n entries. */
  ghost predicate Lists(nodes: seq<MountInfoNode>, ms: seq<Mount>, target: string, n: nat)
    reads nodes`firstChild, nodes`nextSibling
  {
    |nodes| == |ms| && n <= |ms| &&
    forall p: nat :: p < |ms| ==> IsList(nodes, nodes[p].firstChild, Children(ms, target, p, n))
  }

  /** The entries from n on are in no list. */
  ghost predicate Loose(nodes: seq<MountInfoNode>, n: nat)
    reads nodes`nextSibling
  {
    forall i: nat :: n <= i < |nodes| ==> nodes[i].nextSibling == null
  }

  ghost predicate Marks(nodes: seq<MountInfoNode>, ms: seq<Mount>, target: string, n: nat)
    reads nodes`covered
  {
    |nodes| == |ms| && n <= |ms| &&
    forall p: nat :: p < |ms| ==> (nodes[p].covered <==> Covered(ms, target, p, n))
  }

  /** The nodes after the first n entries have been placed. */
  ghost predicate Placed(nodes: seq<MountInfoNode>, ms: seq<Mount>, target: string, n: nat)
    reads nodes
  {
    Represents(nodes, ms) && Lists(nodes, ms, target, n) && Marks(nodes, ms, target, n) && Loose(nodes, n)
  }

  /** The hierarchy as a whole. */
  ghost predicate Unfolded(nodes: seq<MountInfoNode>, ms: seq<Mount>, target: string)
    reads nodes
  {
    Placed(nodes, ms, target, |ms|)
  }

  lemma ChildrenShape(ms: seq<Mount>, target: string, p: nat, n: nat)
    requires n <= |ms|
    ensures var l := Children(ms, target, p, n); Indices(ms, l) && Sorted(l) && Antichain(ms, l)
    ensures forall k :: 0 <= k < |Children(ms, target, p, n)| ==>
      Children(ms, target, p, n)[k] < n && Last(ms, ms[Children(ms, target, p, n)[k]].parent) == Some(p)
  {
    var l := Children(ms, target, p, n);
    forall k | 0 <= k < |l| ensures l[k] < n && Last(ms, ms[l[k]].parent) == Some(p) {
      assert l[k] in l;
    }
    forall a, b | 0 <= a < |l| && 0 <= b < |l| && a != b ensures !(ms[l[a]].clean <= ms[l[b]].clean) {
      assert Minimal(ms, target, p, n, l[a]) && Minimal(ms, target, p, n, l[b]);
    }
  }

  ghost predicate Apart(l: seq<nat>, other: seq<nat>) {
    forall j, k :: 0 <= j < |other| && 0 <= k < |l| ==> other[j] != l[k]
  }

  lemma ApartNodes(nodes: seq<MountInfoNode>, l: seq<nat>, other: seq<nat>)
    requires Indexed(nodes) && Apart(l, other)
    ensures Siblings(nodes, other) !! Siblings(nodes, l)
  {
  }

  lemma CoveredNext(ms: seq<Mount>, target: string, p: nat, n: nat)
    requires p < |ms| && n < |ms|
    ensures Covered(ms, target, p, n + 1) <==>
      (Covered(ms, target, p, n) || (Candidate(ms, target, p, n) && ms[n].clean == ms[p].clean))
  {
    if Covered(ms, target, p, n) {
      var j :| 0 <= j < n && Candidate(ms, target, p, j) && ms[j].clean == ms[p].clean;
      assert Candidate(ms, target, p, j);
    }
  }

  /** Nothing changes for an entry without a parent in the table or outside the target. */
  lemma SkipEntry(nodes: seq<MountInfoNode>, ms: seq<Mount>, target: string, n: nat)
    requires Placed(nodes, ms, target, n) && n < |ms|
    requires Last(ms, ms[n].parent).None? || !(target <= ms[n].clean)
    ensures Placed(nodes, ms, target, n + 1)
  {
    forall p: nat | p < |ms|
      ensures Children(ms, target, p, n + 1) == Children(ms, target, p, n)
      ensures Covered(ms, target, p, n + 1) <==> Covered(ms, target, p, n)
    {
      InsertIsNext(ms, target, p, n);
      CoveredNext(ms, target, p, n);
    }
  }

  /** What the arrival of entry n under p means for the list of p. */
  lemma Arrives(ms: seq<Mount>, target: string, p: nat, n: nat)
    requires p < |ms| && n < |ms| && Candidate(ms, target, p, n)
    ensures var l := Children(ms, target, p, n);
      Indices(ms, l) && Sorted(l) && Antichain(ms, l) && n !in l && Children(ms, target, p, n + 1) == Insert(ms, l, n)
    ensures forall q: nat :: q < |ms| && q != p ==>
      && Children(ms, target, q, n + 1) == Children(ms, target, q, n)
      && Apart(Children(ms, target, p, n), Children(ms, target, q, n))
  {
    ChildrenShape(ms, target, p, n);
    InsertIsNext(ms, target, p, n);
    forall q: nat | q < |ms| && q != p
      ensures Children(ms, target, q, n + 1) == Children(ms, target, q, n)
      ensures Apart(Children(ms, target, p, n), Children(ms, target, q, n))
    {
      InsertIsNext(ms, target, q, n);
      ChildrenShape(ms, target, q, n);
    }
  }

  /** The entries still to come are in no list. */
  lemma NotYetPlaced(nodes: seq<MountInfoNode>, ms: seq<Mount>, target: string, p: nat, n: nat)
    requires Indexed(nodes) && |nodes| == |ms| && n <= |ms|
    ensures forall i: nat :: n <= i < |ms| ==> nodes[i] !in Siblings(nodes, Children(ms, target, p, n))
  {
  }

  /** An entry that arrives at p belongs to the list of p, which has no node in common with others. */
  lemma Undisturbed(nodes: seq<MountInfoNode>, ms: seq<Mount>, target: string, p: nat, n: nat)
    requires Represents(nodes, ms) && p < |ms| && n < |ms| && Candidate(ms, target, p, n)
    ensures var l := Children(ms, target, p, n);
      && Indices(ms, l) && Sorted(l) && Antichain(ms, l) && n !in l
      && Children(ms, target, p, n + 1) == Insert(ms, l, n)
      && (forall i: nat :: n <= i < |ms| ==> nodes[i] !in Siblings(nodes, l))
    ensures forall q: nat :: q < |ms| && q != p ==>
      && nodes[q] != nodes[p]
      && Children(ms, target, q, n + 1) == Children(ms, target, q, n)
      && Siblings(nodes, Children(ms, target, q, n)) !! Siblings(nodes, Children(ms, target, p, n))
  {
    Arrives(ms, target, p, n);
    NotYetPlaced(nodes, ms, target, p, n);
    forall q: nat | q < |ms| && q != p
      ensures Siblings(nodes, Children(ms, target, q, n)) !! Siblings(nodes, Children(ms, target, p, n))
    {
      ApartNodes(nodes, Children(ms, target, p, n), Children(ms, target, q, n));
    }
    hide Children, Apart, Indices, Sorted, Antichain, Insert, Selects, Candidate, Siblings;
  }

  /** Links entry n into the children of its parent, entry p. */
  method LinkEntry(parent: MountInfoNode, cur: MountInfoNode, ghost nodes: seq<MountInfoNode>,
                   ghost ms: seq<Mount>, target: string, ghost n: nat, ghost p: nat)
    requires Represents(nodes, ms) && Lists(nodes, ms, target, n) && Loose(nodes, n) && n < |ms| && p < |ms|
    requires Candidate(ms, target, p, n) && parent == nodes[p] && cur == nodes[n]
    modifies nodes`firstChild, nodes`nextSibling
    ensures Lists(nodes, ms, target, n + 1) && Loose(nodes, n + 1)
  {
    Undisturbed(nodes, ms, target, p, n);
    ghost var l := Children(ms, target, p, n);
    assert nodes[n].nextSibling == null && IsList(nodes, parent.firstChild, l);
    hide IsList, Children, Indices, Sorted, Antichain, Insert, Selects, Candidate, Siblings;
    InsertChild(parent, cur, nodes, ms, n, l);
    forall q: nat | q < |ms| ensures IsList(nodes, nodes[q].firstChild, Children(ms, target, q, n + 1)) {
    }
  }

  /** Places entry n under its parent, entry p. */
  method PlaceEntry(parent: MountInfoNode, cur: MountInfoNode, ghost nodes: seq<MountInfoNode>,
                    ghost ms: seq<Mount>, target: string, ghost n: nat, ghost p: nat)
    requires Placed(nodes, ms, target, n) && n < |ms| && p < |ms|
    requires Candidate(ms, target, p, n) && parent == nodes[p] && cur == nodes[n]
    modifies nodes
    ensures Placed(nodes, ms, target, n + 1)
  {
    forall q: nat | q < |ms|
      ensures Covered(ms, target, q, n + 1) <==>
        Covered(ms, target, q, n) || (q == p && ms[n].clean == ms[p].clean)
    {
      CoveredNext(ms, target, q, n);
    }
    hide Covered;
    hide Lists;
    hide Loose;
    if parent.clean == cur.clean {
      parent.covered := true;
    }
    LinkEntry(parent, cur, nodes, ms, target, n, p);
  }

  /** The last entry whose clean path is the target. */
  function LastAt(ms: seq<Mount>, target: string): (r: Option<nat>)
    ensures r.Some? ==> r.value < |ms| && ms[r.value].clean == target
    ensures r.Some? ==> forall i :: r.value < i < |ms| ==> ms[i].clean != target
    ensures r.None? ==> forall i :: 0 <= i < |ms| ==> ms[i].clean != target
  {
    if ms == [] then None
    else if ms[|ms| - 1].clean == target then Some(|ms| - 1)
    else LastAt(ms[..|ms| - 1], target)
  }

  /** The index of an identifier is that of the last entry that has it. */
  ghost predicate Indexes(ms: seq<Mount>, idIndex: map<int, nat>) {
    forall id :: Last(ms, id) == if id in idIndex then Some(idIndex[id]) else None
  }

  lemma EmptyIndex(target: string)
    ensures LastAt([], target).None? && Indexes([], map[])
  {
  }

  lemma IndexStep(ms: seq<Mount>, i: nat, idIndex: map<int, nat>, target: string)
    requires i < |ms| && Indexes(ms[..i], idIndex)
    ensures Indexes(ms[..i + 1], idIndex[ms[i].id := i])
    ensures LastAt(ms[..i + 1], target) == if ms[i].clean == target then Some(i) else LastAt(ms[..i], target)
  {
    var head := ms[..i + 1];
    assert head[i] == ms[i] && head[..|head| - 1] == ms[..i];
    forall id ensures Last(head, id) == if ms[i].id == id then Some(i) else Last(ms[..i], id) {
    }
  }

  /** One node per entry, the index of each identifier, and the index of the target. */
  method Collect(entries: seq<MountInfoEntry>, clean: string -> string, target: string)
    returns (nodes: seq<MountInfoNode>, idIndex: map<int, nat>, targetIndex: Option<nat>)
    ensures fresh(nodes) && Represents(nodes, Table(entries, clean))
    ensures forall i :: 0 <= i < |nodes| ==>
      nodes[i].entry == entries[i] && nodes[i].firstChild == null && nodes[i].nextSibling == null && !nodes[i].covered
    ensures Indexes(Table(entries, clean), idIndex)
    ensures targetIndex == LastAt(Table(entries, clean), target)
  {
    ghost var ms := Table(entries, clean);
    assert forall k :: 0 <= k < |ms| ==> ms[k] == Mount(entries[k].id, entries[k].parent, clean(entries[k].target));
    hide Table, Last, LastAt, Indexes;
    EmptyIndex(target);
    nodes, idIndex, targetIndex := [], map[], None;
    for i := 0 to |entries|
      invariant |nodes| == i && fresh(nodes)
      invariant forall k :: 0 <= k < i ==>
        && nodes[k].entry == entries[k] && nodes[k].clean == ms[k].clean && nodes[k].index == k
        && nodes[k].firstChild == null && nodes[k].nextSibling == null && !nodes[k].covered
      invariant Indexes(ms[..i], idIndex)
      invariant targetIndex == LastAt(ms[..i], target)
    {
      IndexStep(ms, i, idIndex, target);
      var node := new MountInfoNode(entries[i], clean(entries[i].target), i);
      nodes := nodes + [node];
      idIndex := idIndex[entries[i].id := i];
      if node.clean == target {
        targetIndex := Some(i);
      }
    }
    assert ms[..|entries|] == ms;
  }

  lemma NothingPlaced(nodes: seq<MountInfoNode>, ms: seq<Mount>, target: string)
    requires Represents(nodes, ms)
    requires forall i :: 0 <= i < |nodes| ==>
      nodes[i].firstChild == null && nodes[i].nextSibling == null && !nodes[i].covered
    ensures Placed(nodes, ms, target, 0)
  {
  }

  /** Places every entry, in table order. */
  method PlaceAll(nodes: seq<MountInfoNode>, idIndex: map<int, nat>, ghost ms: seq<Mount>, target: string)
    requires Placed(nodes, ms, target, 0)
    requires Indexes(ms, idIndex)
    modifies nodes
    ensures Unfolded(nodes, ms, target)
  {
    for n := 0 to |nodes|
      invariant Placed(nodes, ms, target, n)
    {
      PlaceOne(nodes, idIndex, ms, target, n);
    }
  }

  method PlaceOne(nodes: seq<MountInfoNode>, idIndex: map<int, nat>, ghost ms: seq<Mount>, target: string, n: nat)
    requires Placed(nodes, ms, target, n) && n < |nodes|
    requires Indexes(ms, idIndex)
    modifies nodes
    ensures Placed(nodes, ms, target, n + 1)
  {
    hide Lists;
    hide Marks;
    hide Loose;
    var cur := nodes[n];
    assert Last(ms, cur.entry.parent).None? <==> cur.entry.parent !in idIndex;
    if cur.entry.parent in idIndex && target <= cur.clean {
      var p := idIndex[cur.entry.parent];
      PlaceEntry(nodes[p], cur, nodes, ms, target, n, p);
    } else {
      SkipEntry(nodes, ms, target, n);
    }
  }

  /** Unfolds a mount table: the children of every node are exactly the minimal candidates that name
      it, in table order; a node is covered exactly when one of them has its path; and the root is
      the last entry at the cleaned target, or null when there is none. */
  method Unfold(entries: seq<MountInfoEntry>, clean: string -> string, target: string)
    returns (root: MountInfoNode?, nodes: seq<MountInfoNode>)
    ensures fresh(nodes)
    ensures root == null <==> LastAt(Table(entries, clean), clean(target)).None?
    ensures root != null ==>
      var ms := Table(entries, clean);
      && Unfolded(nodes, ms, clean(target))
      && root == nodes[LastAt(ms, clean(target)).value]
      && forall i :: 0 <= i < |nodes| ==> nodes[i].entry == entries[i]
  {
    var targetClean := clean(target);
    var idIndex, targetIndex;
    nodes, idIndex, targetIndex := Collect(entries, clean, targetClean);
    if targetIndex.None? {
      return null, nodes;
    }
    NothingPlaced(nodes, Table(entries, clean), targetClean);
    PlaceAll(nodes, idIndex, Table(entries, clean), targetClean);
    root := nodes[targetIndex.value];
  }
}

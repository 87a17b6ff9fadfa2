/** The iterator over the visible nodes of an unfolded mount hierarchy. */
module Collective {
  import opened Wrappers
  import opened MountTable
  import opened MountWalk
  import opened Unfold

  /** The consumer of an iteration: what it was given, and whether it asks for more each time. */
  class Consumer {
    const answers: nat -> bool
    var got: seq<MountInfoNode>

    constructor (answers: nat -> bool)
      ensures this.answers == answers && got == []
    {
      this.answers, got := answers, [];
    }

    method Yield(n: MountInfoNode) returns (more: bool)
      modifies this
      ensures got == old(got) + [n] && more == answers(|old(got)|)
    {
      more := answers(|got|);
      got := got + [n];
    }
  }

  /** How many of n values are taken, the first being value number from, and whether more would be:
      values are taken up to and including the first answered with false. */
  function Taken(answers: nat -> bool, from: nat, n: nat): (r: (nat, bool))
    ensures r.0 <= n
    decreases n
  {
    if n == 0 then (0, true)
    else if !answers(from) then (1, false)
    else
      var (t, more) := Taken(answers, from + 1, n - 1);
      (t + 1, more)
  }

  lemma {:induction false} TakenMeans(answers: nat -> bool, from: nat, n: nat)
    ensures var (t, more) := Taken(answers, from, n);
      && (more <==> forall k :: from <= k < from + n ==> answers(k))
      && (more ==> t == n)
      && (!more ==> t > 0 && !answers(from + t - 1) && forall k :: from <= k < from + t - 1 ==> answers(k))
    decreases n
  {
    if n > 0 && answers(from) {
      TakenMeans(answers, from + 1, n - 1);
    }
  }

  lemma {:induction false} TakenAppend(answers: nat -> bool, from: nat, a: nat, b: nat)
    ensures Taken(answers, from, a + b) ==
      if Taken(answers, from, a).1 then (a + Taken(answers, from + a, b).0, Taken(answers, from + a, b).1)
      else Taken(answers, from, a)
    decreases a
  {
    if a > 0 && answers(from) {
      TakenAppend(answers, from + 1, a - 1, b);
    }
  }

  function NodesOf(nodes: seq<MountInfoNode>, w: seq<nat>): (r: seq<MountInfoNode>)
    requires forall k :: 0 <= k < |w| ==> w[k] < |nodes|
    ensures |r| == |w|
  {
    seq(|w|, k requires 0 <= k < |w| => nodes[w[k]])
  }

  /** Everything a walk from i would deliver to a consumer that has got so far. */
  ghost predicate Delivers(answers: nat -> bool, before: seq<MountInfoNode>, after: seq<MountInfoNode>,
                           more: bool, full: seq<MountInfoNode>)
  {
    var (t, g) := Taken(answers, |before|, |full|);
    more == g && after == before + full[..t]
  }

  lemma DeliversAppend(answers: nat -> bool, before: seq<MountInfoNode>, mid: seq<MountInfoNode>,
                       after: seq<MountInfoNode>, m1: bool, m2: bool, f: seq<MountInfoNode>, g: seq<MountInfoNode>)
    requires Delivers(answers, before, mid, m1, f)
    requires if m1 then Delivers(answers, mid, after, m2, g) else after == mid && !m2
    ensures Delivers(answers, before, after, m2, f + g)
  {
    TakenAppend(answers, |before|, |f|, |g|);
    TakenMeans(answers, |before|, |f|);
    var (t, _) := Taken(answers, |before|, |f|);
    hide Taken;
    if m1 {
      var (u, _) := Taken(answers, |mid|, |g|);
      assert f[..t] == f;
      assert (f + g)[..t + u] == f + g[..u];
      assert before + (f + g[..u]) == before + f + g[..u];
    } else {
      assert (f + g)[..t] == f[..t];
    }
  }

  lemma NodesOfAppend(nodes: seq<MountInfoNode>, v: seq<nat>, w: seq<nat>)
    requires forall k :: 0 <= k < |v + w| ==> (v + w)[k] < |nodes|
    ensures forall k :: 0 <= k < |v| ==> v[k] < |nodes|
    ensures forall k :: 0 <= k < |w| ==> w[k] < |nodes|
    ensures NodesOf(nodes, v + w) == NodesOf(nodes, v) + NodesOf(nodes, w)
  {
    assert forall k :: 0 <= k < |v| ==> (v + w)[k] == v[k];
    assert forall k :: 0 <= k < |w| ==> (v + w)[|v| + k] == w[k];
  }

  lemma {:induction false} WalkIndices(ms: seq<Mount>, target: string, i: nat, depth: nat)
    requires i < |ms| && Walk(ms, target, i, depth).Some?
    ensures Indices(ms, Walk(ms, target, i, depth).value)
    decreases depth, 0
  {
    WalkAllIndices(ms, target, Kids(ms, target, i), depth - 1);
  }

  lemma {:induction false} WalkAllIndices(ms: seq<Mount>, target: string, l: seq<nat>, depth: nat)
    requires Indices(ms, l) && WalkAll(ms, target, l, depth).Some?
    ensures Indices(ms, WalkAll(ms, target, l, depth).value)
    decreases depth, 1 + |l|
  {
    if l != [] {
      WalkIndices(ms, target, l[0], depth);
      WalkAllIndices(ms, target, l[1..], depth);
    }
  }

  ghost function Visible(nodes: seq<MountInfoNode>, ms: seq<Mount>, target: string, i: nat, depth: nat)
    : seq<MountInfoNode>
    requires |nodes| == |ms| && i < |ms| && Walk(ms, target, i, depth).Some?
  {
    WalkIndices(ms, target, i, depth);
    NodesOf(nodes, Walk(ms, target, i, depth).value)
  }

  ghost function VisibleAll(nodes: seq<MountInfoNode>, ms: seq<Mount>, target: string, l: seq<nat>, depth: nat)
    : seq<MountInfoNode>
    requires |nodes| == |ms| && Indices(ms, l) && WalkAll(ms, target, l, depth).Some?
  {
    WalkAllIndices(ms, target, l, depth);
    NodesOf(nodes, WalkAll(ms, target, l, depth).value)
  }

  lemma VisibleParts(nodes: seq<MountInfoNode>, ms: seq<Mount>, target: string, i: nat, depth: nat)
    requires |nodes| == |ms| && i < |ms| && Walk(ms, target, i, depth).Some?
    ensures depth > 0 && WalkAll(ms, target, Kids(ms, target, i), depth - 1).Some?
    ensures Visible(nodes, ms, target, i, depth) ==
      (if Covered(ms, target, i, |ms|) then [] else [nodes[i]])
      + VisibleAll(nodes, ms, target, Kids(ms, target, i), depth - 1)
  {
    var head := if Covered(ms, target, i, |ms|) then [] else [i];
    WalkIndices(ms, target, i, depth);
    NodesOfAppend(nodes, head, WalkAll(ms, target, Kids(ms, target, i), depth - 1).value);
    assert NodesOf(nodes, [i]) == [nodes[i]];
    assert NodesOf(nodes, []) == [];
  }

  lemma VisibleAllParts(nodes: seq<MountInfoNode>, ms: seq<Mount>, target: string, l: seq<nat>, k: nat, depth: nat)
    requires |nodes| == |ms| && Indices(ms, l) && k < |l| && WalkAll(ms, target, l[k..], depth).Some?
    ensures Walk(ms, target, l[k], depth).Some? && WalkAll(ms, target, l[k + 1..], depth).Some?
    ensures VisibleAll(nodes, ms, target, l[k..], depth) ==
      Visible(nodes, ms, target, l[k], depth) + VisibleAll(nodes, ms, target, l[k + 1..], depth)
  {
    assert l[k..][1..] == l[k + 1..];
    WalkAllIndices(ms, target, l[k..], depth);
    NodesOfAppend(nodes, Walk(ms, target, l[k], depth).value, WalkAll(ms, target, l[k + 1..], depth).value);
  }

  /** What unfolding says about one node. */
  lemma UnfoldedAt(nodes: seq<MountInfoNode>, ms: seq<Mount>, target: string, i: nat)
    requires Unfolded(nodes, ms, target) && i < |ms|
    ensures |nodes| == |ms| && (nodes[i].covered <==> Covered(ms, target, i, |ms|))
    ensures var l := Kids(ms, target, i);
      nodes[i].firstChild == At(nodes, l, 0, null) && Links(nodes, l, 0, null) && Indices(ms, l)
  {
    assert IsList(nodes, nodes[i].firstChild, Children(ms, target, i, |ms|));
  }

  /** Visits the visible nodes in preorder, stopping right after the first the consumer refuses. */
  method Visit(n: MountInfoNode, consumer: Consumer,
               ghost nodes: seq<MountInfoNode>, ghost ms: seq<Mount>, ghost target: string, ghost i: nat,
               ghost depth: nat)
    returns (more: bool)
    requires Unfolded(nodes, ms, target) && i < |ms| && n == nodes[i] && Walk(ms, target, i, depth).Some?
    modifies consumer
    ensures Delivers(consumer.answers, old(consumer.got), consumer.got, more, Visible(nodes, ms, target, i, depth))
    decreases depth, 0
  {
    hide *;
    UnfoldedAt(nodes, ms, target, i);
    VisibleParts(nodes, ms, target, i, depth);
    ghost var before, head := consumer.got, if n.covered then [] else [n];
    ghost var rest := VisibleAll(nodes, ms, target, Kids(ms, target, i), depth - 1);
    assert Visible(nodes, ms, target, i, depth) == head + rest;
    more := VisitSelf(n, consumer);
    if !more {
      Refused(consumer.answers, before, consumer.got, head, rest);
      return;
    }
    ghost var mid := consumer.got;
    UnfoldedAt(nodes, ms, target, i);
    more := VisitSiblings(n.firstChild, consumer, nodes, ms, target, Kids(ms, target, i), depth - 1);
    DeliversAppend(consumer.answers, before, mid, consumer.got, true, more, head, rest);
  }

  /** Offers a node to the consumer unless it is covered. */
  method VisitSelf(n: MountInfoNode, consumer: Consumer) returns (more: bool)
    modifies consumer
    ensures Delivers(consumer.answers, old(consumer.got), consumer.got, more, if n.covered then [] else [n])
  {
    more := true;
    ghost var before := consumer.got;
    if !n.covered {
      more := consumer.Yield(n);
    }
    YieldDelivers(consumer.answers, before, consumer.got, more, n, n.covered);
  }

  /** A consumer that refused part of a delivery has refused the rest. */
  lemma Refused(answers: nat -> bool, before: seq<MountInfoNode>, after: seq<MountInfoNode>,
                f: seq<MountInfoNode>, g: seq<MountInfoNode>)
    requires Delivers(answers, before, after, false, f)
    ensures Delivers(answers, before, after, false, f + g)
  {
    DeliversAppend(answers, before, after, after, false, false, f, g);
  }

  lemma YieldDelivers(answers: nat -> bool, before: seq<MountInfoNode>, after: seq<MountInfoNode>, more: bool,
                      n: MountInfoNode, skip: bool)
    requires after == (if skip then before else before + [n])
    requires more == (skip || answers(|before|))
    ensures Delivers(answers, before, after, more, if skip then [] else [n])
  {
    if !skip {
      assert Taken(answers, |before|, 1).0 == 1 && [n][..1] == [n];
    }
  }

  /** Visits the siblings of a child list in order, as long as the consumer wants more. */
  method VisitSiblings(first: MountInfoNode?, consumer: Consumer, ghost nodes: seq<MountInfoNode>,
                       ghost ms: seq<Mount>, ghost target: string, ghost l: seq<nat>, ghost depth: nat)
    returns (more: bool)
    requires Unfolded(nodes, ms, target) && Indices(ms, l) && WalkAll(ms, target, l, depth).Some?
    requires |nodes| == |ms| && first == At(nodes, l, 0, null) && Links(nodes, l, 0, null)
    modifies consumer
    ensures Delivers(consumer.answers, old(consumer.got), consumer.got, more, VisibleAll(nodes, ms, target, l, depth))
    decreases depth, 1
  {
    hide Unfolded;
    hide Walk;
    hide WalkAll;
    hide Visible;
    ghost var before, done, k := consumer.got, [], 0;
    ghost var all := VisibleAll(nodes, ms, target, l, depth);
    assert l[0..] == l;
    var cur := first;
    more := true;
    while cur != null
      invariant k <= |l| && cur == At(nodes, l, k, null) && WalkAll(ms, target, l[k..], depth).Some?
      invariant Delivers(consumer.answers, before, consumer.got, true, done)
      invariant all == done + VisibleAll(nodes, ms, target, l[k..], depth)
      decreases |l| - k
    {
      VisibleAllParts(nodes, ms, target, l, k, depth);
      ghost var mid := consumer.got;
      ghost var v, rest := Visible(nodes, ms, target, l[k], depth), VisibleAll(nodes, ms, target, l[k + 1..], depth);
      more := Visit(cur, consumer, nodes, ms, target, l[k], depth);
      DeliversAppend(consumer.answers, before, mid, consumer.got, true, more, done, v);
      assert done + (v + rest) == (done + v) + rest;
      if !more {
        Refused(consumer.answers, before, consumer.got, done + v, rest);
        return;
      }
      done := done + v;
      cur := cur.nextSibling;
      k := k + 1;
    }
    EndsDelivered(nodes, ms, target, l[k..], depth);
  }

  lemma EndsDelivered(nodes: seq<MountInfoNode>, ms: seq<Mount>, target: string, l: seq<nat>, depth: nat)
    requires |nodes| == |ms| && l == []
    ensures Indices(ms, l) && WalkAll(ms, target, l, depth) == Some([]) && VisibleAll(nodes, ms, target, l, depth) == []
  {
  }
}

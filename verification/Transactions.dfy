/** What a commit followed by a full revert does to the host. */
module Transactions {
  import opened Wrappers
  import opened Enablements
  import opened SystemOps

  lemma ApplyKeepsShape(w: World, op: Op)
    requires WellFormed(w) && Apply(w, op).Some?
    ensures WellFormed(Apply(w, op).value)
  {
    var v := Apply(w, op).value;
    forall q | q in v.tree && q != [] ensures IsDir(v, Parent(q)) {
      assert q in w.tree ==> IsDir(w, Parent(q));
    }
  }

  lemma RemoveKeepsShape(w: World, p: Path)
    requires WellFormed(w) && Remove(w, p).Some?
    ensures WellFormed(Remove(w, p).value)
  {
    var v := Remove(w, p).value;
    forall q | q in v.tree && q != [] ensures IsDir(v, Parent(q)) {
      assert q in w.tree && Parent(q) != p;
    }
  }

  lemma {:induction false} AfterKeepsShape(w: World, ops: seq<Op>)
    requires WellFormed(w)
    ensures WellFormed(After(w, ops))
  {
    if ops != [] {
      AfterKeepsShape(w, ops[..|ops| - 1]);
      var v := After(w, ops[..|ops| - 1]);
      if Apply(v, ops[|ops| - 1]).Some? {
        ApplyKeepsShape(v, ops[|ops| - 1]);
      }
    }
  }

  lemma {:induction false} UndoKeepsShape(w: World, ops: seq<Op>, ec: Option<Bits>, faults: set<nat>)
    requires WellFormed(w)
    ensures WellFormed(Undo(w, ops, ec, faults).0)
    decreases |ops|
  {
    if ops != [] {
      var k := |ops| - 1;
      var r := if k in faults then None else Revert(w, ops[k], ec);
      if r.Some? && ops[k].Reverts(ec) && ops[k].Grants().PathKey? {
        RemoveKeepsShape(w, ops[k].Grants().path);
      }
      UndoKeepsShape(if r.Some? then r.value else w, ops[..k], ec, faults);
    }
  }

  lemma UndoPath(w: World, p: Path, node: Node)
    requires WellFormed(w) && p != [] && p !in w.tree
    ensures Remove(w.(tree := w.tree[p := node]), p) == Some(w)
  {
    var v := w.(tree := w.tree[p := node]);
    forall q | q in v.tree && q != [] ensures Parent(q) != p {
      assert |Parent(q)| < |q|;
    }
    assert v.tree - {p} == w.tree && v.acl - {p} == w.acl;
  }

  /** Reverting an operation right after it was applied undoes it exactly if what it grants is new. */
  lemma UndoOneIff(w: World, op: Op, ec: Option<Bits>)
    requires WellFormed(w) && Apply(w, op).Some? && op.Reverts(ec)
    ensures Revert(Apply(w, op).value, op, ec) == Some(w) <==> !Present(w, op.Grants())
  {
    var v := Apply(w, op).value;
    match op
    case Mkdir(_, p, perm, _) =>
      if p !in w.tree {
        UndoPath(w, p, Dir(perm));
      }
    case Hardlink(_, dst, src) => UndoPath(w, dst, w.tree[src]);
    case AclUpdate(_, p, perms) =>
      if p !in w.acl {
        assert v.acl - {p} == w.acl;
      }
    case Xhost(user) =>
      if user !in w.hosts {
        assert v.hosts - {user} == w.hosts;
      }
  }

  /** Every operation is accepted in turn; FirstFailure is |ops| exactly then. */
  ghost predicate Accepted(w: World, ops: seq<Op>) {
    forall k :: 0 <= k < |ops| ==> Apply(After(w, ops[..k]), ops[k]).Some?
  }

  lemma {:induction false} AcceptedMeans(w: World, ops: seq<Op>, faults: set<nat>)
    ensures FirstFailure(w, ops, faults) == |ops| <==>
      Accepted(w, ops) && forall k :: 0 <= k < |ops| ==> k !in faults
  {
    hide Apply;
    if ops != [] {
      var init := ops[..|ops| - 1];
      AcceptedMeans(w, init, faults);
      assert forall k :: 0 <= k < |init| ==> init[..k] == ops[..k];
      if Accepted(w, ops) {
        forall k | 0 <= k < |init| ensures Apply(After(w, init[..k]), init[k]).Some? {
          assert Apply(After(w, ops[..k]), ops[k]).Some?;
        }
      }
    }
  }

  /** Operations only add the keys they grant, in any state. */
  lemma {:induction false} AfterAdds(w: World, ops: seq<Op>, key: Key)
    requires Present(After(w, ops), key)
    ensures Present(w, key) || exists j :: 0 <= j < |ops| && ops[j].Grants() == key
  {
    if ops != [] {
      var init := ops[..|ops| - 1];
      if Present(After(w, init), key) {
        AfterAdds(w, init, key);
        if !Present(w, key) {
          var j :| 0 <= j < |init| && init[j].Grants() == key;
          assert ops[j].Grants() == key;
        }
      } else {
        assert ops[|ops| - 1].Grants() == key;
      }
    }
  }

  lemma {:induction false} PrefixAccepted(w: World, ops: seq<Op>, faults: set<nat>, k: nat)
    requires k <= FirstFailure(w, ops, faults)
    ensures Accepted(w, ops[..k])
  {
    if ops == [] || k == |ops| {
      assert ops[..k] == ops;
      AcceptedMeans(w, ops, faults);
    } else {
      var init := ops[..|ops| - 1];
      PrefixAccepted(w, init, faults, k);
      assert init[..k] == ops[..k];
    }
  }

  lemma RevertKeys(w: World, op: Op, ec: Option<Bits>)
    requires WellFormed(w) && Revert(w, op, ec).Some?
    ensures forall key :: Present(Revert(w, op, ec).value, key) <==>
      Present(w, key) && !(op.Reverts(ec) && key in op.Strips())
  {
  }

  lemma RevertShape(w: World, op: Op, ec: Option<Bits>)
    requires WellFormed(w) && Revert(w, op, ec).Some?
    ensures WellFormed(Revert(w, op, ec).value)
  {
    if op.Reverts(ec) && op.Grants().PathKey? {
      RemoveKeepsShape(w, op.Grants().path);
    }
  }

  /** An access control update without permissions takes the entry away as it is applied. */
  predicate Clears(op: Op, key: Key) {
    op.AclUpdate? && op.perms == [] && op.Grants() == key
  }

  /** Operation j grants the key, and neither it nor a later one clears it. */
  ghost predicate Standing(ops: seq<Op>, j: nat, key: Key) {
    j < |ops| && ops[j].Grants() == key && forall m :: j <= m < |ops| ==> !Clears(ops[m], key)
  }

  lemma ApplyPresent(w: World, op: Op, key: Key)
    requires Apply(w, op).Some?
    ensures Present(Apply(w, op).value, key) <==> !Clears(op, key) && (Present(w, key) || op.Grants() == key)
  {
  }

  ghost predicate SomeStanding(ops: seq<Op>, key: Key) {
    exists j :: Standing(ops, j, key)
  }

  lemma StandingLast(ops: seq<Op>, key: Key)
    requires ops != []
    ensures var init, last := ops[..|ops| - 1], ops[|ops| - 1];
      SomeStanding(ops, key) <==> !Clears(last, key) && (SomeStanding(init, key) || last.Grants() == key)
  {
    var init, last := ops[..|ops| - 1], ops[|ops| - 1];
    if !Clears(last, key) {
      if j: nat :| Standing(init, j, key) {
        assert Standing(ops, j, key);
      }
      if last.Grants() == key {
        assert Standing(ops, |init|, key);
      }
    }
    if j: nat :| Standing(ops, j, key) {
      assert !Clears(ops[|init|], key);
      assert j < |init| ==> Standing(init, j, key);
    }
  }

  /** A key the host did not have is present after a commit exactly if a grant of it stands. */
  lemma {:induction false} AfterPresent(w: World, ops: seq<Op>, key: Key)
    requires Accepted(w, ops) && !Present(w, key)
    ensures Present(After(w, ops), key) <==> SomeStanding(ops, key)
  {
    hide Apply, Present;
    if ops != [] {
      var init, last := ops[..|ops| - 1], ops[|ops| - 1];
      assert Accepted(w, init) by {
        assert forall k :: 0 <= k < |init| ==> init[..k] == ops[..k];
      }
      AfterPresent(w, init, key);
      assert Apply(After(w, ops[..|init|]), ops[|init|]).Some?;
      ApplyPresent(After(w, init), last, key);
      StandingLast(ops, key);
      hide SomeStanding;
    }
  }

  /** A revert without errors leaves exactly the keys that no reverted operation strips. */
  lemma {:induction false} UndoPresent(w: World, ops: seq<Op>, ec: Option<Bits>, key: Key)
    requires WellFormed(w) && Undo(w, ops, ec, {}).1 == {}
    ensures Present(Undo(w, ops, ec, {}).0, key) <==>
      Present(w, key) && forall m :: 0 <= m < |ops| && ops[m].Reverts(ec) ==> key !in ops[m].Strips()
    decreases |ops|
  {
    if ops != [] {
      var k := |ops| - 1;
      assert Revert(w, ops[k], ec).Some?;
      RevertKeys(w, ops[k], ec);
      RevertShape(w, ops[k], ec);
      hide Revert, Present, WellFormed;
      UndoPresent(Revert(w, ops[k], ec).value, ops[..k], ec, key);
    }
  }

  /** The revert of operation m removes the path p. */
  predicate Removes(ops: seq<Op>, ec: Option<Bits>, m: nat, p: Path) {
    m < |ops| && ops[m].Reverts(ec) && ops[m].Grants() == PathKey(p)
  }

  /** Operation m can remove the path p when its turn comes: p is in the tree, no operation reverted
      before m removes it, and one reverted before m removes each of its children. */
  ghost predicate Removable(tree: map<Path, Node>, ops: seq<Op>, ec: Option<Bits>, m: nat, p: Path) {
    && p != [] && p in tree
    && (forall c: nat :: Removes(ops, ec, c, p) ==> c <= m)
    && forall q :: q in tree && q != [] && Parent(q) == p ==> RemovedAfter(ops, ec, m, q)
  }

  ghost predicate RemovedAfter(ops: seq<Op>, ec: Option<Bits>, m: nat, q: Path) {
    exists c: nat :: m < c && Removes(ops, ec, c, q)
  }

  lemma RemovedAfterLast(ops: seq<Op>, ec: Option<Bits>, m: nat, q: Path)
    requires m < |ops| - 1
    ensures var k := |ops| - 1;
      RemovedAfter(ops, ec, m, q) <==> RemovedAfter(ops[..k], ec, m, q) || Removes(ops, ec, k, q)
  {
    var k := |ops| - 1;
    if c: nat :| m < c && Removes(ops[..k], ec, c, q) {
      assert Removes(ops, ec, c, q);
    }
    if c: nat :| m < c && Removes(ops, ec, c, q) {
      assert c < k ==> Removes(ops[..k], ec, c, q);
    }
  }

  /** The last operation is reverted first: what it removes is out of the way of the others. */
  lemma RemovableLast(tree: map<Path, Node>, ops: seq<Op>, ec: Option<Bits>, m: nat, p: Path)
    requires m < |ops| - 1
    ensures var k := |ops| - 1;
      var left := if ops[k].Reverts(ec) && ops[k].Grants().PathKey? then tree - {ops[k].Grants().path} else tree;
      Removable(tree, ops, ec, m, p) <==> Removable(left, ops[..k], ec, m, p)
  {
    var k := |ops| - 1;
    var left := if ops[k].Reverts(ec) && ops[k].Grants().PathKey? then tree - {ops[k].Grants().path} else tree;
    forall c: nat, q
      ensures Removes(ops, ec, c, q) <==> Removes(ops[..k], ec, c, q) || (c == k && Removes(ops, ec, k, q))
    {
    }
    forall q ensures q in left <==> q in tree && !Removes(ops, ec, k, q) {
    }
    forall q ensures RemovedAfter(ops, ec, m, q) <==> RemovedAfter(ops[..k], ec, m, q) || Removes(ops, ec, k, q) {
      RemovedAfterLast(ops, ec, m, q);
    }
    hide Removes, RemovedAfter;
  }

  ghost predicate AllRemovable(tree: map<Path, Node>, ops: seq<Op>, ec: Option<Bits>) {
    forall m: nat, p :: Removes(ops, ec, m, p) ==> Removable(tree, ops, ec, m, p)
  }

  lemma LastRemovable(u: World, ops: seq<Op>, ec: Option<Bits>, p: Path)
    requires ops != [] && Removes(ops, ec, |ops| - 1, p)
    ensures Removable(u.tree, ops, ec, |ops| - 1, p) <==> Remove(u, p).Some?
  {
  }

  /** A revert without faults meets no error exactly if every path it is to remove is there once and
      its children are removed before it. */
  lemma {:induction false} UndoSucceedsIff(u: World, ops: seq<Op>, ec: Option<Bits>)
    ensures Undo(u, ops, ec, {}).1 == {} <==> AllRemovable(u.tree, ops, ec)
    decreases |ops|
  {
    if ops != [] {
      var k := |ops| - 1;
      var init, op, r := ops[..k], ops[k], Revert(u, ops[k], ec);
      if r.Some? {
        assert r.value.tree == if op.Reverts(ec) && op.Grants().PathKey? then u.tree - {op.Grants().path} else u.tree;
        UndoSucceedsIff(r.value, init, ec);
      }
      assert r.None? ==> op.Reverts(ec) && op.Grants().PathKey? && Remove(u, op.Grants().path).None?;
      forall m: nat, p
        ensures Removes(ops, ec, m, p) <==> Removes(init, ec, m, p) || (m == k && Removes(ops, ec, k, p))
      {
      }
      forall m: nat, p | Removes(ops, ec, m, p)
        ensures m == k ==> (Removable(u.tree, ops, ec, m, p) <==> r.Some?)
        ensures m < k && r.Some? ==> (Removable(u.tree, ops, ec, m, p) <==> Removable(r.value.tree, init, ec, m, p))
      {
        if m == k {
          LastRemovable(u, ops, ec, p);
        } else {
          RemovableLast(u.tree, ops, ec, m, p);
        }
      }
      assert r.None? ==> Removes(ops, ec, k, op.Grants().path);
      hide Revert, Removable, Removes;
    }
  }

  /** A revert without errors leaves none of the keys a reverted operation granted, adds nothing, and
      cannot have met a path that two of them created. */
  lemma UndoRemoves(w: World, ops: seq<Op>, ec: Option<Bits>)
    requires WellFormed(w) && Undo(w, ops, ec, {}).1 == {}
    ensures var v := Undo(w, ops, ec, {}).0;
      && (forall key :: Present(v, key) ==> Present(w, key))
      && (forall k :: 0 <= k < |ops| && ops[k].Reverts(ec) ==>
            !Present(v, ops[k].Grants()) && (ops[k].Grants().PathKey? ==> Present(w, ops[k].Grants())))
      && (forall j, k :: 0 <= j < k < |ops| && ops[j].Reverts(ec) && ops[k].Reverts(ec) && ops[k].Grants().PathKey? ==>
            ops[j].Grants() != ops[k].Grants())
  {
    UndoSucceedsIff(w, ops, ec);
    forall key ensures Present(Undo(w, ops, ec, {}).0, key) ==>
      Present(w, key) && forall m :: 0 <= m < |ops| && ops[m].Reverts(ec) ==> key !in ops[m].Strips()
    {
      UndoPresent(w, ops, ec, key);
    }
    forall k: nat | k < |ops| && ops[k].Reverts(ec) && ops[k].Grants().PathKey?
      ensures Present(w, ops[k].Grants())
      ensures forall j: nat :: j < |ops| && ops[j].Reverts(ec) && ops[j].Grants() == ops[k].Grants() ==> j <= k
    {
      var p := ops[k].Grants().path;
      assert Removes(ops, ec, k, p);
      forall j: nat | j < |ops| && ops[j].Reverts(ec) && ops[j].Grants() == ops[k].Grants() ensures j <= k {
        assert Removes(ops, ec, j, p);
      }
    }
  }

  /** A key that w has is in v too, with the same value. */
  ghost predicate Same(w: World, v: World, key: Key) {
    && Present(w, key) && Present(v, key)
    && match key
       case PathKey(p) => v.tree[p] == w.tree[p]
       case AclKey(p) => v.acl[p] == w.acl[p]
       case HostKey(_) => true
  }

  /** If operation j is the last to grant its key, it changes nothing on the host that was there before
      the first. */
  ghost predicate Settled(w: World, ops: seq<Op>, j: nat)
    requires j < |ops|
  {
    (forall m :: j < m < |ops| ==> ops[m].Grants() != ops[j].Grants()) ==> Apply(w, ops[j]) == Some(w)
  }

  ghost predicate SettledKey(w: World, ops: seq<Op>, key: Key) {
    forall j: nat :: j < |ops| && ops[j].Grants() == key ==> Settled(w, ops, j)
  }

  lemma SettledLater(w: World, ops: seq<Op>, j: nat)
    requires j < |ops| - 1
    ensures var k := |ops| - 1;
      Settled(w, ops, j) <==> ops[k].Grants() == ops[j].Grants() || Settled(w, ops[..k], j)
  {
    hide Apply;
    var k := |ops| - 1;
    var init := ops[..k];
    assert (forall m :: j < m < |ops| ==> ops[m].Grants() != ops[j].Grants()) <==>
      (forall m :: j < m < k ==> init[m].Grants() != init[j].Grants()) && ops[k].Grants() != ops[j].Grants();
  }

  lemma SettledLast(w: World, ops: seq<Op>, key: Key)
    requires ops != []
    ensures var init, last := ops[..|ops| - 1], ops[|ops| - 1];
      SettledKey(w, ops, key) <==> if last.Grants() == key then Apply(w, last) == Some(w) else SettledKey(w, init, key)
  {
    var k := |ops| - 1;
    var init, last := ops[..k], ops[k];
    assert last.Grants() == key ==> (Settled(w, ops, k) <==> Apply(w, last) == Some(w));
    hide Settled, Apply;
    forall j: nat | j < k && ops[j].Grants() == key
      ensures Settled(w, ops, j) <==> last.Grants() == key || Settled(w, init, j)
    {
      SettledLater(w, ops, j);
    }
    if last.Grants() != key && SettledKey(w, ops, key) {
      forall j: nat | j < k && init[j].Grants() == key ensures Settled(w, init, j) {
        assert ops[j].Grants() == key && Settled(w, ops, j);
      }
    }
  }

  /** Of what was there before, directories stay directories and files do not change. */
  lemma {:induction false} AfterKind(w: World, ops: seq<Op>, p: Path)
    requires p in w.tree
    ensures var v := After(w, ops); p in v.tree && if w.tree[p].Dir? then v.tree[p].Dir? else v.tree[p] == w.tree[p]
  {
    if ops != [] {
      AfterKind(w, ops[..|ops| - 1], p);
    }
  }

  /** An operation on a key that w has, applied later on: it gives the key the value it has in w exactly
      if it would change nothing in w. */
  lemma ApplySame(w: World, v: World, op: Op)
    requires Present(w, op.Grants()) && Apply(v, op).Some?
    requires op.Grants().PathKey? ==>
      var p := op.Grants().path;
      p in v.tree && if w.tree[p].Dir? then v.tree[p].Dir? else v.tree[p] == w.tree[p]
    requires op.Grants().AclKey? ==> op.Grants().path in w.tree
    ensures Same(w, Apply(v, op).value, op.Grants()) <==> Apply(w, op) == Some(w)
  {
    match op
    case Mkdir(_, p, perm, _) =>
      assert w.tree[p] == Dir(perm) ==> w.tree[p := Dir(perm)] == w.tree;
      assert w.tree[p] != Dir(perm) ==> w.tree[p := Dir(perm)][p] != w.tree[p];
    case Hardlink(_, _, _) =>
    case AclUpdate(_, p, perms) =>
      assert w.acl[p] == perms ==> w.acl[p := perms] == w.acl;
      assert w.acl[p] != perms ==> w.acl[p := perms][p] != w.acl[p];
      assert p !in w.acl - {p};
    case Xhost(u) => assert w.hosts + {u} == w.hosts;
  }

  lemma ApplyOther(v: World, op: Op, key: Key)
    requires Apply(v, op).Some? && op.Grants() != key
    ensures Present(Apply(v, op).value, key) <==> Present(v, key)
    ensures Present(v, key) ==> Same(v, Apply(v, op).value, key)
  {
  }

  /** A commit leaves a key of the host as it was exactly if the last operation on it changes nothing. */
  lemma {:induction false} AfterSame(w: World, ops: seq<Op>, key: Key)
    requires WellFormed(w) && Accepted(w, ops) && Present(w, key)
    ensures Same(w, After(w, ops), key) <==> SettledKey(w, ops, key)
  {
    if ops != [] {
      var init, last := ops[..|ops| - 1], ops[|ops| - 1];
      assert Accepted(w, init) by {
        assert forall k :: 0 <= k < |init| ==> init[..k] == ops[..k];
      }
      AfterSame(w, init, key);
      assert Apply(After(w, ops[..|init|]), ops[|init|]).Some?;
      SettledLast(w, ops, key);
      var v := After(w, init);
      if last.Grants() == key {
        if key.PathKey? {
          AfterKind(w, init, key.path);
        }
        ApplySame(w, v, last);
      } else {
        ApplyOther(v, last, key);
      }
      hide Apply, SettledKey;
    }
  }

  lemma {:induction false} UndoSame(u: World, ops: seq<Op>, ec: Option<Bits>, key: Key)
    requires Present(Undo(u, ops, ec, {}).0, key)
    ensures Same(u, Undo(u, ops, ec, {}).0, key)
    decreases |ops|
  {
    if ops != [] {
      var k := |ops| - 1;
      var r := Revert(u, ops[k], ec);
      UndoSame(if r.Some? then r.value else u, ops[..k], ec, key);
    }
  }

  ghost predicate StripsSome(ops: seq<Op>, ec: Option<Bits>, key: Key) {
    exists m :: 0 <= m < |ops| && ops[m].Reverts(ec) && key in ops[m].Strips()
  }

  /** What a commit and a revert without errors leave of a key. */
  ghost predicate KeyRestored(w: World, ops: seq<Op>, ec: Option<Bits>, key: Key) {
    if Present(w, key) then SettledKey(w, ops, key) && !StripsSome(ops, ec, key)
    else SomeStanding(ops, key) ==> StripsSome(ops, ec, key)
  }

  lemma KeyRestoredIff(w: World, ops: seq<Op>, ec: Option<Bits>, key: Key)
    requires WellFormed(w) && Accepted(w, ops) && Undo(After(w, ops), ops, ec, {}).1 == {}
    ensures var v := Undo(After(w, ops), ops, ec, {}).0;
      (if Present(w, key) then Same(w, v, key) else !Present(v, key)) <==> KeyRestored(w, ops, ec, key)
  {
    var u, v := After(w, ops), Undo(After(w, ops), ops, ec, {}).0;
    AfterKeepsShape(w, ops);
    UndoPresent(u, ops, ec, key);
    if Present(v, key) {
      UndoSame(u, ops, ec, key);
    }
    hide Undo, After, WellFormed, Accepted, SettledKey, SomeStanding;
    if Present(w, key) {
      AfterSame(w, ops, key);
    } else {
      AfterPresent(w, ops, key);
    }
  }

  lemma WorldEquals(w: World, v: World)
    requires forall key :: if Present(w, key) then Same(w, v, key) else !Present(v, key)
    ensures v == w
  {
    forall p ensures (p in v.tree <==> p in w.tree) && (p in w.tree ==> v.tree[p] == w.tree[p]) {
      assert if Present(w, PathKey(p)) then Same(w, v, PathKey(p)) else !Present(v, PathKey(p));
    }
    forall p ensures (p in v.acl <==> p in w.acl) && (p in w.acl ==> v.acl[p] == w.acl[p]) {
      assert if Present(w, AclKey(p)) then Same(w, v, AclKey(p)) else !Present(v, AclKey(p));
    }
    forall u ensures u in v.hosts <==> u in w.hosts {
      assert if Present(w, HostKey(u)) then Same(w, v, HostKey(u)) else !Present(v, HostKey(u));
    }
    assert v.tree == w.tree && v.acl == w.acl && v.hosts == w.hosts;
  }

  /** A commit and its revert restore the host without an error exactly if every removal can be made
      and every key is restored. */
  lemma RestoresByKey(w: World, ops: seq<Op>, ec: Option<Bits>)
    requires WellFormed(w) && Accepted(w, ops)
    ensures Undo(After(w, ops), ops, ec, {}) == (w, {}) <==>
      AllRemovable(After(w, ops).tree, ops, ec) && forall key :: KeyRestored(w, ops, ec, key)
  {
    UndoSucceedsIff(After(w, ops), ops, ec);
    var (v, errs) := Undo(After(w, ops), ops, ec, {});
    if errs == {} {
      forall key
        ensures (if Present(w, key) then Same(w, v, key) else !Present(v, key)) <==> KeyRestored(w, ops, ec, key)
      {
        KeyRestoredIff(w, ops, ec, key);
      }
      hide Undo, KeyRestored;
      if forall key :: KeyRestored(w, ops, ec, key) {
        WorldEquals(w, v);
      }
    }
  }

  /** What operation j grants is stripped by a reverted operation, or is cleared by a later one. */
  ghost predicate Cleared(ops: seq<Op>, ec: Option<Bits>, j: nat)
    requires j < |ops|
  {
    StripsSome(ops, ec, ops[j].Grants()) || exists m: nat :: j <= m < |ops| && Clears(ops[m], ops[j].Grants())
  }

  /** The revert of operation m and no other removes p, and the children it removes come after m. */
  ghost predicate TakenAt(ops: seq<Op>, ec: Option<Bits>, m: nat, p: Path) {
    && Removes(ops, ec, m, p)
    && (forall c: nat :: Removes(ops, ec, c, p) ==> c == m)
    && forall c: nat, q :: Removes(ops, ec, c, q) && q != [] && Parent(q) == p ==> m < c
  }

  ghost predicate Taken(ops: seq<Op>, ec: Option<Bits>, p: Path) {
    exists m :: TakenAt(ops, ec, m, p)
  }

  /** What operation j grants is as it was before. What was there is not stripped, and the last operation
      on it changes nothing; a new path is removed once, after its children; what else is new is stripped
      or cleared. */
  ghost predicate Restored(w: World, ops: seq<Op>, ec: Option<Bits>, j: nat)
    requires j < |ops|
  {
    var key := ops[j].Grants();
    if Present(w, key) then Settled(w, ops, j) && !StripsSome(ops, ec, key)
    else if key.PathKey? then Taken(ops, ec, key.path)
    else Cleared(ops, ec, j)
  }

  /** Whatever the host held before: a commit and its revert under any criteria restore it without an
      error exactly if everything granted is as it was before. */
  lemma RestoresIff(w: World, ops: seq<Op>, ec: Option<Bits>)
    requires WellFormed(w) && Accepted(w, ops)
    ensures Undo(After(w, ops), ops, ec, {}) == (w, {}) <==> forall j: nat :: j < |ops| ==> Restored(w, ops, ec, j)
  {
    RestoresByKey(w, ops, ec);
    if AllRemovable(After(w, ops).tree, ops, ec) && forall key :: KeyRestored(w, ops, ec, key) {
      forall j: nat | j < |ops| ensures Restored(w, ops, ec, j) {
        KeysRestore(w, ops, ec, j);
      }
    }
    if forall j: nat :: j < |ops| ==> Restored(w, ops, ec, j) {
      forall m: nat, p | Removes(ops, ec, m, p) ensures Removable(After(w, ops).tree, ops, ec, m, p) {
        RestoredRemovable(w, ops, ec, m, p);
      }
      forall key ensures KeyRestored(w, ops, ec, key) {
        RestoredKey(w, ops, ec, key);
      }
    }
  }

  lemma KeysRestore(w: World, ops: seq<Op>, ec: Option<Bits>, j: nat)
    requires j < |ops| && AllRemovable(After(w, ops).tree, ops, ec)
    requires KeyRestored(w, ops, ec, ops[j].Grants())
    ensures Restored(w, ops, ec, j)
  {
    var key := ops[j].Grants();
    if !Present(w, key) && key.PathKey? {
      assert Standing(ops, j, key);
      var m: nat :| m < |ops| && ops[m].Reverts(ec) && key in ops[m].Strips();
      RemovableTaken(w, ops, ec, m, key.path);
    } else if !Present(w, key) {
      assert Standing(ops, j, key) || exists m: nat :: j <= m < |ops| && Clears(ops[m], key);
    }
  }

  lemma RemovableTaken(w: World, ops: seq<Op>, ec: Option<Bits>, m: nat, p: Path)
    requires AllRemovable(After(w, ops).tree, ops, ec) && Removes(ops, ec, m, p)
    ensures TakenAt(ops, ec, m, p)
  {
    hide Removes, After;
    var tree := After(w, ops).tree;
    forall c: nat | Removes(ops, ec, c, p) ensures c == m {
      assert Removable(tree, ops, ec, c, p) && Removable(tree, ops, ec, m, p);
    }
    forall c: nat, q | Removes(ops, ec, c, q) && q != [] && Parent(q) == p ensures m < c {
      assert Removable(tree, ops, ec, c, q) && Removable(tree, ops, ec, m, p);
      var d: nat :| m < d && Removes(ops, ec, d, q);
      assert d <= c;
    }
  }

  lemma RestoredRemovable(w: World, ops: seq<Op>, ec: Option<Bits>, m: nat, p: Path)
    requires WellFormed(w) && Accepted(w, ops) && Removes(ops, ec, m, p)
    requires forall j: nat :: j < |ops| ==> Restored(w, ops, ec, j)
    ensures Removable(After(w, ops).tree, ops, ec, m, p)
  {
    var key := PathKey(p);
    assert Restored(w, ops, ec, m) && key in ops[m].Strips();
    assert TakenAt(ops, ec, m, p);
    assert Standing(ops, m, key);
    AfterPresent(w, ops, key);
    forall q | q in After(w, ops).tree && q != [] && Parent(q) == p ensures RemovedAfter(ops, ec, m, q) {
      assert q !in w.tree;
      AfterAdds(w, ops, PathKey(q));
      var j: nat :| j < |ops| && ops[j].Grants() == PathKey(q);
      assert Restored(w, ops, ec, j);
      var c: nat :| TakenAt(ops, ec, c, q);
    }
  }

  lemma RestoredKey(w: World, ops: seq<Op>, ec: Option<Bits>, key: Key)
    requires WellFormed(w) && forall j: nat :: j < |ops| ==> Restored(w, ops, ec, j)
    ensures KeyRestored(w, ops, ec, key)
  {
    hide Settled;
    if Present(w, key) {
      forall m | 0 <= m < |ops| && ops[m].Reverts(ec) ensures key !in ops[m].Strips() {
        assert Restored(w, ops, ec, m) && ops[m].Grants() in ops[m].Strips();
      }
      forall j: nat | j < |ops| && ops[j].Grants() == key ensures Settled(w, ops, j) {
        assert Restored(w, ops, ec, j);
      }
    } else if j: nat :| Standing(ops, j, key) {
      assert Restored(w, ops, ec, j);
      if key.PathKey? {
        var m: nat :| TakenAt(ops, ec, m, key.path);
        assert key in ops[m].Strips();
      }
    }
  }

  /** No path that is absent from w is granted by two operations. */
  ghost predicate CreatesOnce(w: World, ops: seq<Op>) {
    forall j, k :: 0 <= j < k < |ops| && ops[k].Grants().PathKey? && !Present(w, ops[k].Grants()) ==>
      ops[j].Grants() != ops[k].Grants()
  }

  /** A path created once is removed, if at all, after what was created in it. */
  lemma OnceTaken(w: World, ops: seq<Op>, ec: Option<Bits>, j: nat)
    requires WellFormed(w) && Accepted(w, ops) && CreatesOnce(w, ops) && j < |ops|
    requires ops[j].Grants().PathKey? && !Present(w, ops[j].Grants())
    ensures Taken(ops, ec, ops[j].Grants().path) <==> Cleared(ops, ec, j)
  {
    var p := ops[j].Grants().path;
    if ops[j].Reverts(ec) {
      forall c: nat, q | Removes(ops, ec, c, q) && q != [] && Parent(q) == p ensures j < c {
        var v := After(w, ops[..c]);
        assert Apply(v, ops[c]).Some?;
        if Present(v, PathKey(q)) {
          AfterAdds(w, ops[..c], PathKey(q));
        }
        AfterAdds(w, ops[..c], PathKey(p));
      }
      assert TakenAt(ops, ec, j, p) && ops[j].Grants() in ops[j].Strips();
    } else {
      forall m | 0 <= m < |ops| && ops[m].Reverts(ec) ensures ops[j].Grants() !in ops[m].Strips() {
        assert ops[m].Grants() == ops[j].Grants() ==> m == j;
      }
    }
  }

  /** When no new path is created twice: what was there is to stay and to be settled, and every new grant
      is to be stripped or cleared. */
  lemma RestoresIffCleared(w: World, ops: seq<Op>, ec: Option<Bits>)
    requires WellFormed(w) && Accepted(w, ops) && CreatesOnce(w, ops)
    ensures Undo(After(w, ops), ops, ec, {}) == (w, {}) <==>
      forall j: nat :: j < |ops| ==>
        if Present(w, ops[j].Grants()) then Settled(w, ops, j) && !StripsSome(ops, ec, ops[j].Grants())
        else Cleared(ops, ec, j)
  {
    RestoresIff(w, ops, ec);
    forall j: nat | j < |ops|
      ensures Restored(w, ops, ec, j) <==>
        if Present(w, ops[j].Grants()) then Settled(w, ops, j) && !StripsSome(ops, ec, ops[j].Grants())
        else Cleared(ops, ec, j)
    {
      if ops[j].Grants().PathKey? && !Present(w, ops[j].Grants()) {
        OnceTaken(w, ops, ec, j);
      }
    }
    hide *;
  }

  /** A directory that is ensured was there with that mode, or is removed with an ephemeral one at its
      path; any other grant is new, and its path, if it is one, is removed once after its children. */
  ghost predicate Clean(w: World, ops: seq<Op>, ec: Option<Bits>, j: nat)
    requires j < |ops|
  {
    var key := ops[j].Grants();
    if ops[j].Ensured() && Present(w, key) then Settled(w, ops, j)
    else !Present(w, key) && (key.PathKey? ==> Taken(ops, ec, key.path))
  }

  lemma RestoredIffClean(w: World, ops: seq<Op>, ec: Option<Bits>, j: nat)
    requires j < |ops| && (forall op :: op in ops ==> op.Ensured() || op.Reverts(ec))
    ensures Restored(w, ops, ec, j) ==> Clean(w, ops, ec, j)
    ensures (forall m: nat :: m < |ops| ==> Clean(w, ops, ec, m)) ==> Restored(w, ops, ec, j)
  {
    hide Settled, Taken;
    var key := ops[j].Grants();
    assert ops[j] in ops && key in ops[j].Strips();
    if forall m: nat :: m < |ops| ==> Clean(w, ops, ec, m) {
      assert Clean(w, ops, ec, j);
      if ops[j].Ensured() && Present(w, key) {
        forall m | 0 <= m < |ops| && ops[m].Reverts(ec) ensures key !in ops[m].Strips() {
          assert Clean(w, ops, ec, m);
        }
      }
    }
  }

  /** A commit and a revert of everything but ensured directories restore the host without an error
      exactly if all grants are clean. */
  lemma RestoresIffClean(w: World, ops: seq<Op>, ec: Option<Bits>)
    requires WellFormed(w) && FirstFailure(w, ops, {}) == |ops|
    requires forall op :: op in ops ==> op.Ensured() || op.Reverts(ec)
    ensures Undo(After(w, ops), ops, ec, {}) == (w, {}) <==> forall j: nat :: j < |ops| ==> Clean(w, ops, ec, j)
  {
    AcceptedMeans(w, ops, {});
    RestoresIff(w, ops, ec);
    forall j: nat | j < |ops|
      ensures Restored(w, ops, ec, j) ==> Clean(w, ops, ec, j)
      ensures (forall m: nat :: m < |ops| ==> Clean(w, ops, ec, m)) ==> Restored(w, ops, ec, j)
    {
      RestoredIffClean(w, ops, ec, j);
    }
    hide *;
  }

  /** The rollback of a partial commit restores any host exactly when every operation that took effect is
      restored under the nil criteria. A new ensured directory stays, unless an ephemeral one is made
      at its path, and so does a user-scoped entry that is not removed with its path. */
  lemma RollbackRestoresIff(w: World, ops: seq<Op>, applyFaults: set<nat>)
    requires WellFormed(w)
    ensures var done := ops[..FirstFailure(w, ops, applyFaults)];
      Undo(After(w, done), done, None, {}) == (w, {}) <==> forall j: nat :: j < |done| ==> Restored(w, done, None, j)
  {
    var k := FirstFailure(w, ops, applyFaults);
    PrefixAccepted(w, ops, applyFaults, k);
    RestoresIff(w, ops[..k], None);
  }

  /** The revert of an ephemeral directory that was already there takes it away. */
  lemma ExistingDirectoryIsLost(w: World, p: Path, perm: Perm)
    requires WellFormed(w) && IsDir(w, p) && p != [] && !HasChild(w, p)
    ensures var op := Mkdir(PROCESS, p, perm, true);
      && FirstFailure(w, [op], {}) == 1
      && p !in Undo(After(w, [op]), [op], Some(PROCESS), {}).0.tree
  {
    var op := Mkdir(PROCESS, p, perm, true);
    assert [op][..0] == [] && After(w, [op][..0]) == w;
    var v := After(w, [op]);
    assert Apply(w, op) == Some(w.(tree := w.tree[p := Dir(perm)]));
    assert v == w.(tree := w.tree[p := Dir(perm)]);
    forall q | q in v.tree && q != [] ensures Parent(q) != p {
      assert q in w.tree;
    }
    assert Revert(v, op, Some(PROCESS)) == Remove(v, p);
  }

  /** An access control entry granted in user scope outlives the rollback of its own commit. */
  lemma RollbackKeepsUserScope(w: World, p: Path, perms: seq<Perm>, user: string)
    requires p in w.tree && perms != []
    ensures var ops := [AclUpdate(USER, p, perms), Xhost(user)];
      && FirstFailure(w, ops, {1}) == 1
      && p in Undo(After(w, ops[..1]), ops[..1], None, {}).0.acl
  {
    var ops := [AclUpdate(USER, p, perms), Xhost(user)];
    assert ops[..1] == [ops[0]] && ops[..1][..0] == [];
    assert FirstFailure(w, ops[..1], {1}) == 1;
  }
}

/** Reversible system operations over one host, and the transaction that commits and reverts them. */
module SystemOps {
  import opened Wrappers
  import opened Enablements

  type Path = seq<string>
  type Perm = nat

  datatype Node = Dir(perm: Perm) | File(inode: nat)

  /** The part of the host the operations touch; an access control entry is that of the one
      target user. */
  datatype World = World(tree: map<Path, Node>, acl: map<Path, seq<Perm>>, hosts: set<string>)

  datatype Key = PathKey(path: Path) | AclKey(path: Path) | HostKey(user: string)

  datatype Op =
    | Mkdir(et: Bits, path: Path, perm: Perm, ephemeral: bool)
    | Hardlink(et: Bits, dst: Path, src: Path)
    | AclUpdate(et: Bits, target: Path, perms: seq<Perm>)
    | Xhost(user: string)
  {
    function Type(): Bits {
      if Xhost? then X11 else et
    }

    /** What the operation puts in place. */
    function Grants(): Key {
      match this
      case Mkdir(_, p, _, _) => PathKey(p)
      case Hardlink(_, dst, _) => PathKey(dst)
      case AclUpdate(_, p, _) => AclKey(p)
      case Xhost(u) => HostKey(u)
    }

    /** An ensured directory outlives every instance. */
    predicate Ensured() {
      Mkdir? && !ephemeral
    }

    predicate Reverts(ec: Option<Bits>) {
      !Ensured() && HasType(ec, Type())
    }

    /** What a revert that takes effect may remove: a path takes its access control entry along. */
    function Strips(): set<Key> {
      if Grants().PathKey? then {Grants(), AclKey(Grants().path)} else {Grants()}
    }
  }

  function Parent(p: Path): Path
    requires p != []
  {
    p[..|p| - 1]
  }

  predicate IsDir(w: World, p: Path) {
    p in w.tree && w.tree[p].Dir?
  }

  predicate HasChild(w: World, p: Path) {
    exists q :: q in w.tree && q != [] && Parent(q) == p
  }

  ghost predicate WellFormed(w: World) {
    && IsDir(w, [])
    && (forall q :: q in w.tree && q != [] ==> IsDir(w, Parent(q)))
    && (forall q :: q in w.acl ==> q in w.tree)
  }

  ghost predicate Present(w: World, key: Key) {
    match key
    case PathKey(p) => p in w.tree
    case AclKey(p) => p in w.acl
    case HostKey(u) => u in w.hosts
  }

  function Remove(w: World, p: Path): Option<World> {
    if p == [] || p !in w.tree || HasChild(w, p) then None
    else Some(w.(tree := w.tree - {p}, acl := w.acl - {p}))
  }

  /** The host after an operation is applied, or None when it is refused without effect. */
  function Apply(w: World, op: Op): Option<World> {
    match op
    case Mkdir(_, p, perm, _) =>
      if p in w.tree then
        Some(if w.tree[p].Dir? then w.(tree := w.tree[p := Dir(perm)]) else w)
      else if p == [] || !IsDir(w, Parent(p)) then None
      else Some(w.(tree := w.tree[p := Dir(perm)]))
    case Hardlink(_, dst, src) =>
      if dst in w.tree || dst == [] || !IsDir(w, Parent(dst)) || src !in w.tree || w.tree[src].Dir? then None
      else Some(w.(tree := w.tree[dst := w.tree[src]]))
    case AclUpdate(_, p, perms) =>
      if p !in w.tree then None
      else Some(w.(acl := if perms == [] then w.acl - {p} else w.acl[p := perms]))
    case Xhost(u) => Some(w.(hosts := w.hosts + {u}))
  }

  /** The host after an operation is reverted under a criteria; None is an error without effect. */
  function Revert(w: World, op: Op, ec: Option<Bits>): Option<World> {
    if !op.Reverts(ec) then Some(w)
    else match op
      case Mkdir(_, p, _, _) => Remove(w, p)
      case Hardlink(_, dst, _) => Remove(w, dst)
      case AclUpdate(_, p, _) => Some(if p in w.tree then w.(acl := w.acl - {p}) else w)
      case Xhost(u) => Some(w.(hosts := w.hosts - {u}))
  }

  /** Where a commit stops: the first operation that is refused or faults, or |ops|. */
  function FirstFailure(w: World, ops: seq<Op>, faults: set<nat>): (k: nat)
    ensures k <= |ops|
  {
    if ops == [] then 0
    else
      var init := ops[..|ops| - 1];
      var k := FirstFailure(w, init, faults);
      if k < |init| then k
      else
        var last := ops[|ops| - 1];
        if |init| in faults || Apply(After(w, init), last).None? then |init| else |ops|
  }

  /** The host after the operations, each one that is refused leaving it alone. */
  function After(w: World, ops: seq<Op>): World {
    if ops == [] then w
    else
      var v := After(w, ops[..|ops| - 1]);
      match Apply(v, ops[|ops| - 1])
      case Some(v') => v'
      case None => v
  }

  /** The host after the operations are reverted from last to first, and the indices that failed. */
  function Undo(w: World, ops: seq<Op>, ec: Option<Bits>, faults: set<nat>): (World, set<nat>)
    decreases |ops|
  {
    if ops == [] then (w, {})
    else
      var k := |ops| - 1;
      var r := if k in faults then None else Revert(w, ops[k], ec);
      var (v, errs) := Undo(if r.Some? then r.value else w, ops[..k], ec, faults);
      (v, if r.Some? then errs else errs + {k})
  }

  datatype Call = ApplyCall(index: nat) | RevertCall(index: nat, ec: Option<Bits>)

  function ApplyCalls(n: nat): seq<Call> {
    seq(n, i requires 0 <= i < n => ApplyCall(i))
  }

  /** Reverts of n operations, last registered first. */
  function RevertCalls(n: nat, ec: Option<Bits>): seq<Call> {
    seq(n, i requires 0 <= i < n => RevertCall(n - 1 - i, ec))
  }

  class Host {
    var world: World
    var calls: seq<Call>

    constructor (w: World)
      ensures world == w && calls == []
    {
      world, calls := w, [];
    }

    method ApplyOp(index: nat, op: Op, fault: bool) returns (ok: bool)
      modifies this
      ensures calls == old(calls) + [ApplyCall(index)]
      ensures ok <==> !fault && Apply(old(world), op).Some?
      ensures world == if ok then Apply(old(world), op).value else old(world)
    {
      calls := calls + [ApplyCall(index)];
      var r := if fault then None else Apply(world, op);
      ok := r.Some?;
      if ok {
        world := r.value;
      }
    }

    method RevertOp(index: nat, op: Op, ec: Option<Bits>, fault: bool) returns (ok: bool)
      modifies this
      ensures calls == old(calls) + [RevertCall(index, ec)]
      ensures ok <==> !fault && Revert(old(world), op, ec).Some?
      ensures world == if ok then Revert(old(world), op, ec).value else old(world)
    {
      calls := calls + [RevertCall(index, ec)];
      var r := if fault then None else Revert(world, op, ec);
      ok := r.Some?;
      if ok {
        world := r.value;
      }
    }
  }

  class I {
    var ops: seq<Op>
    var committed: bool
    var reverted: bool

    constructor ()
      ensures ops == [] && !committed && !reverted
    {
      ops, committed, reverted := [], false, false;
    }

    method Add(op: Op)
      modifies this`ops
      ensures ops == old(ops) + [op]
    {
      ops := ops + [op];
    }

    static lemma ApplyCallsStep(i: nat)
      ensures ApplyCalls(i + 1) == ApplyCalls(i) + [ApplyCall(i)]
    {
    }

    /** How one more operation extends a commit that has not failed. */
    static lemma CommitStep(w: World, ops: seq<Op>, i: nat, faults: set<nat>)
      requires i < |ops| && FirstFailure(w, ops[..i], faults) == i
      ensures var v := After(w, ops[..i]);
        && (i in faults || Apply(v, ops[i]).None? ==> FirstFailure(w, ops[..i + 1], faults) == i)
        && (i !in faults && Apply(v, ops[i]).Some? ==>
              FirstFailure(w, ops[..i + 1], faults) == i + 1 && After(w, ops[..i + 1]) == Apply(v, ops[i]).value)
    {
      assert ops[..i + 1][..i] == ops[..i];
      hide Apply;
    }

    /** The loop of Commit: applies the operations up to the first that fails, and puts the ones
        that took effect in sp. */
    method ApplyAll(host: Host, sp: I, faults: set<nat>) returns (k: nat)
      requires sp != this && sp.ops == []
      modifies host, sp`ops
      ensures k == FirstFailure(old(host.world), ops, faults)
      ensures sp.ops == ops[..k] && host.world == After(old(host.world), ops[..k])
      ensures host.calls == old(host.calls) + ApplyCalls(if k < |ops| then k + 1 else k)
    {
      ghost var w := host.world;
      assert FirstFailure(w, [], faults) == 0 && After(w, []) == w && ApplyCalls(0) == [];
      assert ops[..0] == [];
      hide FirstFailure, After, Apply, ApplyCalls;
      for i := 0 to |ops|
        invariant sp.ops == ops[..i] && FirstFailure(w, ops[..i], faults) == i
        invariant host.world == After(w, ops[..i]) && host.calls == old(host.calls) + ApplyCalls(i)
      {
        CommitStep(w, ops, i, faults);
        ApplyCallsStep(i);
        var applied := host.ApplyOp(i, ops[i], i in faults);
        if !applied {
          FailurePersists(w, ops, i + 1, faults);
          return i;
        }
        sp.Add(ops[i]);
      }
      assert ops[..|ops|] == ops;
      return |ops|;
    }

    /** Applies every operation; a failure at k reverts exactly k - 1 down to 0 under the nil
        criteria. */
    method Commit(host: Host, applyFaults: set<nat>, revertFaults: set<nat>) returns (ok: bool)
      requires !committed
      modifies this`committed, host
      ensures committed
      ensures var k := FirstFailure(old(host.world), ops, applyFaults);
        && (ok <==> k == |ops|)
        && host.calls == old(host.calls)
          + (if ok then ApplyCalls(k) else ApplyCalls(k + 1) + RevertCalls(k, None))
        && host.world == (if ok then After(old(host.world), ops)
                          else Undo(After(old(host.world), ops[..k]), ops[..k], None, revertFaults).0)
    {
      hide FirstFailure, After, Undo, ApplyCalls, RevertCalls;
      committed := true;
      var sp := new I();
      var k := ApplyAll(host, sp, applyFaults);
      ok := k == |ops|;
      assert ops[..|ops|] == ops;
      if !ok {
        var errs := sp.RevertAll(host, None, revertFaults);
      }
    }

    /** Reverts every operation, last first, whether or not earlier reverts failed. */
    method RevertAll(host: Host, ec: Option<Bits>, faults: set<nat>) returns (errs: set<nat>)
      requires !reverted
      modifies this`reverted, host
      ensures reverted
      ensures (host.world, errs) == Undo(old(host.world), ops, ec, faults)
      ensures host.calls == old(host.calls) + RevertCalls(|ops|, ec)
    {
      reverted := true;
      errs := {};
      ghost var whole := Undo(host.world, ops, ec, faults);
      assert ops[..|ops|] == ops;
      for i := 0 to |ops|
        invariant reverted && host.calls == old(host.calls) + RevertCalls(|ops|, ec)[..i]
        invariant var (v, rest) := Undo(host.world, ops[..|ops| - i], ec, faults);
          whole.0 == v && whole.1 == rest + errs
      {
        var k := |ops| - i - 1;
        assert ops[..k + 1][..k] == ops[..k];
        var ok := host.RevertOp(k, ops[k], ec, k in faults);
        if !ok {
          errs := errs + {k};
        }
        assert RevertCalls(|ops|, ec)[..i + 1] == RevertCalls(|ops|, ec)[..i] + [RevertCall(k, ec)];
      }
    }
  }

  lemma {:induction false} FailurePersists(w: World, ops: seq<Op>, k: nat, faults: set<nat>)
    requires k <= |ops| && FirstFailure(w, ops[..k], faults) < k
    ensures FirstFailure(w, ops, faults) == FirstFailure(w, ops[..k], faults)
  {
    if k < |ops| {
      assert ops[..|ops| - 1][..k] == ops[..k];
      FailurePersists(w, ops[..|ops| - 1], k, faults);
    } else {
      assert ops[..k] == ops;
    }
  }
}

/** Shared grants over whole histories: which steps take away what a peer relies on. */
module LifecycleSafety {
  import opened Wrappers
  import opened Enablements
  import opened Store
  import opened SystemOps
  import opened Transactions
  import opened Lifecycle
  import opened LifecycleInvariants

  /** A user-scoped operation is reverted only when every other instance has finished. */
  lemma UserScopeRevertedLast(cfg: Config, host: World, history: seq<(Id, Action)>, i: Id, a: Action)
    requires WellTyped(cfg) && WellFormed(host)
    requires var s := Initial(cfg, host); Orderly(cfg, s, history) && Run(cfg, s, history).Some?
    requires var s := Run(cfg, Initial(cfg, host), history).value;
      && Next(cfg, s, i, a).Some? && a.RevertOp?
      && var ph := s.phase[i];
        ph.remaining <= |cfg[i].ops| && cfg[i].ops[ph.remaining - 1].Type() == USER
        && cfg[i].ops[ph.remaining - 1].Reverts(Some(ph.ec))
    ensures var s := Run(cfg, Initial(cfg, host), history).value;
      forall j :: j in s.phase && j != i ==> !Committed(s.phase[j])
  {
    RunKeepsInv(cfg, host, history);
    var s := Run(cfg, Initial(cfg, host), history).value;
    assert InstanceInv(cfg, s, i);
  }

  predicate Shared(op: Op) {
    op.Type() != PROCESS
  }

  /** How many operations of an instance are in force. */
  function InForce(prog: Program, ph: Phase): nat {
    if ph.Committing? && ph.applied <= |prog.ops| then ph.applied
    else if Committed(ph) then |prog.ops|
    else 0
  }

  /** Operation k is in force, shared, and the last of those in force on its key. */
  ghost predicate Relied(prog: Program, n: nat, k: nat) {
    k < n <= |prog.ops| && Shared(prog.ops[k]) && forall m :: k < m < n ==> prog.ops[m].Grants() != prog.ops[k].Grants()
  }

  /** The host gives what an operation put in place: the mode of a directory, and at least the
      permissions of an access control entry. */
  ghost predicate Provides(w: World, op: Op) {
    match op
    case Mkdir(_, p, perm, _) => p in w.tree && (w.tree[p].Dir? ==> w.tree[p].perm == perm)
    case Hardlink(_, dst, _) => dst in w.tree
    case AclUpdate(_, p, perms) => perms != [] ==> p in w.acl && forall x :: x in perms ==> x in w.acl[p]
    case Xhost(u) => u in w.hosts
  }

  /** Every shared grant that a committing or committed instance relies on is in place. */
  ghost predicate Retained(cfg: Config, s: State)
    requires s.phase.Keys == cfg.Keys
  {
    forall j, k: nat :: j in cfg && Relied(cfg[j], InForce(cfg[j], s.phase[j]), k) ==> Provides(s.host, cfg[j].ops[k])
  }

  /** The keys a step takes away. */
  function Stripped(prog: Program, ph: Phase, a: Action): set<Key> {
    if ph.Rolling? && a == RollBack(true) && 0 < ph.remaining <= |prog.ops| then
      var op := prog.ops[ph.remaining - 1];
      if op.Reverts(None) then op.Strips() else {}
    else if ph.Reverting? && a == RevertOp(true) && 0 < ph.remaining <= |prog.ops| then
      var op := prog.ops[ph.remaining - 1];
      if op.Reverts(Some(ph.ec)) then op.Strips() else {}
    else {}
  }

  /** An update without permissions relies on no entry. */
  predicate Needs(op: Op) {
    op.AclUpdate? ==> op.perms != []
  }

  /** Both are for the same key, and applying a leaves less there than b put in place. */
  predicate Lessens(a: Op, b: Op) {
    match (a, b)
    case (Mkdir(_, p, perm, _), Mkdir(_, q, needed, _)) => p == q && perm != needed
    case (AclUpdate(_, p, perms), AclUpdate(_, q, needed)) => p == q && exists x :: x in needed && x !in perms
    case (_, _) => false
  }

  /** A step takes away what an operation put in place. */
  predicate Takes(prog: Program, w: World, ph: Phase, a: Action, b: Op) {
    if ph.Committing? && a.ApplyOk? then
      ph.applied < |prog.ops| && Lessens(prog.ops[ph.applied], b) && (b.Mkdir? ==> IsDir(w, b.path))
    else Needs(b) && b.Grants() in Stripped(prog, ph, a)
  }

  /** A step of i takes operation k away from its peer j, which relies on it. */
  ghost predicate TakesFrom(cfg: Config, s: State, i: Id, a: Action, j: Id, k: nat) {
    && i in cfg && i in s.phase && j in cfg && j in s.phase && j != i
    && Relied(cfg[j], InForce(cfg[j], s.phase[j]), k)
    && Takes(cfg[i], s.host, s.phase[i], a, cfg[j].ops[k])
  }

  ghost predicate TakesSome(cfg: Config, s: State, i: Id, a: Action) {
    exists j, k :: TakesFrom(cfg, s, i, a, j, k)
  }

  lemma ApplyProvides(w: World, a: Op, b: Op)
    requires Apply(w, a).Some?
    ensures Provides(Apply(w, a).value, a)
    ensures Provides(w, b) ==>
      (Provides(Apply(w, a).value, b) <==> !(Lessens(a, b) && (b.Mkdir? ==> IsDir(w, b.path))))
  {
    assert b.AclUpdate? && b.perms != [] ==> b.perms[0] in b.perms;
  }

  lemma RevertProvides(w: World, a: Op, ec: Option<Bits>, b: Op)
    requires WellFormed(w) && Revert(w, a, ec).Some? && Provides(w, b)
    ensures Provides(Revert(w, a, ec).value, b) <==> !(Needs(b) && a.Reverts(ec) && b.Grants() in a.Strips())
  {
  }

  /** What a step does to something that is in place. */
  lemma HostProvides(prog: Program, w: World, ph: Phase, a: Action, b: Op)
    requires WellFormed(w) && HostStep(prog, w, ph, a).Some? && Provides(w, b)
    ensures Provides(HostStep(prog, w, ph, a).value, b) <==> !Takes(prog, w, ph, a, b)
  {
    hide WellFormed, Provides, Apply, Revert, Lessens, Needs, IsDir;
    var ops := prog.ops;
    if ph.Committing? && a.ApplyOk? {
      ApplyProvides(w, ops[ph.applied], b);
    } else if ph.Rolling? && a == RollBack(true) && 0 < ph.remaining <= |ops| {
      RevertProvides(w, ops[ph.remaining - 1], None, b);
    } else if ph.Reverting? && a == RevertOp(true) && 0 < ph.remaining <= |ops| {
      RevertProvides(w, ops[ph.remaining - 1], Some(ph.ec), b);
    }
  }

  /** How many operations are in force after a local step. */
  lemma InForceStep(prog: Program, ph: Phase, a: Action)
    requires LocalStep(prog, ph, a).Some?
    ensures var n, n' := InForce(prog, ph), InForce(prog, LocalStep(prog, ph, a).value);
      if ph.Committing? && a.ApplyOk? then n' == n + 1 == ph.applied + 1 <= |prog.ops| else n' == n || n' == 0
    ensures ph.Rolling? || ph.Reverting? ==> InForce(prog, ph) == 0
  {
  }

  /** An instance that keeps on relying on something does not take it away itself. */
  lemma OwnStays(prog: Program, w: World, ph: Phase, a: Action, k: nat)
    requires WellFormed(w) && LocalStep(prog, ph, a).Some? && HostStep(prog, w, ph, a).Some?
    requires Relied(prog, InForce(prog, LocalStep(prog, ph, a).value), k)
    requires Relied(prog, InForce(prog, ph), k) ==> Provides(w, prog.ops[k])
    ensures Provides(HostStep(prog, w, ph, a).value, prog.ops[k])
  {
    InForceStep(prog, ph, a);
    var n := InForce(prog, ph);
    if ph.Committing? && a.ApplyOk? && k == n {
      ApplyProvides(w, prog.ops[k], prog.ops[k]);
    } else {
      hide WellFormed, Provides, Apply, Revert, LocalStep, InForce;
      assert Relied(prog, n, k);
      HostProvides(prog, w, ph, a, prog.ops[k]);
      hide HostStep;
    }
  }

  /** A step keeps in place what is relied on exactly if it takes nothing from a peer. */
  lemma StepRetainsByTaking(cfg: Config, s: State, i: Id, a: Action)
    requires s.phase.Keys == cfg.Keys && WellFormed(s.host) && Retained(cfg, s) && Next(cfg, s, i, a).Some?
    ensures Next(cfg, s, i, a).value.phase.Keys == cfg.Keys
    ensures Retained(cfg, Next(cfg, s, i, a).value) <==> !TakesSome(cfg, s, i, a)
  {
    NextParts(cfg, s, i, a);
    hide Next, LocalStep, HostStep, FilesStep, WellFormed, InForce, Relied, Takes, Provides;
    var s', ph := Next(cfg, s, i, a).value, s.phase[i];
    forall j, k: nat | j in cfg && j != i && Relied(cfg[j], InForce(cfg[j], s.phase[j]), k)
      ensures Provides(s'.host, cfg[j].ops[k]) <==> !TakesFrom(cfg, s, i, a, j, k)
    {
      HostProvides(cfg[i], s.host, ph, a, cfg[j].ops[k]);
    }
    forall k: nat | Relied(cfg[i], InForce(cfg[i], s'.phase[i]), k) ensures Provides(s'.host, cfg[i].ops[k]) {
      OwnStays(cfg[i], s.host, ph, a, k);
    }
    if j, k: nat :| TakesFrom(cfg, s, i, a, j, k) {
      assert Relied(cfg[j], InForce(cfg[j], s'.phase[j]), k);
    }
  }

  /** A commit puts less at a key than a peer relies on. */
  ghost predicate HarmfulApply(cfg: Config, s: State, i: Id, a: Action) {
    i in s.phase && s.phase[i].Committing? && TakesSome(cfg, s, i, a)
  }

  /** The rollback of a failed commit strips a grant that a peer relies on. */
  ghost predicate HarmfulRollback(cfg: Config, s: State, i: Id, a: Action) {
    i in s.phase && s.phase[i].Rolling? && TakesSome(cfg, s, i, a)
  }

  /** The operation that a revert step reverts has another scope than operation k of j. */
  predicate OtherScope(cfg: Config, s: State, i: Id, j: Id, k: nat) {
    && i in cfg && i in s.phase && s.phase[i].Reverting? && 0 < s.phase[i].remaining <= |cfg[i].ops|
    && j in cfg && k < |cfg[j].ops|
    && cfg[i].ops[s.phase[i].remaining - 1].Type() != cfg[j].ops[k].Type()
  }

  /** A cleanup strips a grant that a peer relies on in another scope. */
  ghost predicate CrossScoped(cfg: Config, s: State, i: Id, a: Action) {
    exists j, k :: OtherScope(cfg, s, i, j, k) && TakesFrom(cfg, s, i, a, j, k)
  }

  ghost predicate Harmful(cfg: Config, s: State, i: Id, a: Action) {
    HarmfulApply(cfg, s, i, a) || HarmfulRollback(cfg, s, i, a) || CrossScoped(cfg, s, i, a)
  }

  /** While i reverts under the lock, a peer in force is committed and spared. */
  lemma PeerCommitted(cfg: Config, s: State, i: Id, j: Id)
    requires Inv(cfg, s) && i in cfg && j in cfg && j != i
    requires s.phase[i].Reverting? && 0 < InForce(cfg[j], s.phase[j])
    ensures Committed(s.phase[j]) && Spares(cfg, s, s.phase[i].ec)
  {
    assert InstanceInv(cfg, s, i);
    assert InstanceInv(cfg, s, j);
  }

  /** What a step takes, it takes as it applies, rolls back or reverts an operation. */
  lemma TakingPhase(cfg: Config, s: State, i: Id, a: Action, j: Id, k: nat)
    requires TakesFrom(cfg, s, i, a, j, k)
    ensures s.phase[i].Committing? || s.phase[i].Rolling? || s.phase[i].Reverting?
    ensures 0 < InForce(cfg[j], s.phase[j]) && k < |cfg[j].ops| && Shared(cfg[j].ops[k])
    ensures var ph := s.phase[i];
      ph.Reverting? ==> 0 < ph.remaining <= |cfg[i].ops| && cfg[i].ops[ph.remaining - 1].Reverts(Some(ph.ec))
  {
  }

  /** Under the lock, a revert takes nothing from a peer in the scope of the peer. */
  lemma CriteriaSparesPeer(cfg: Config, s: State, i: Id, a: Action, j: Id, k: nat)
    requires WellTyped(cfg) && Inv(cfg, s) && s.phase.Keys == cfg.Keys
    requires TakesFrom(cfg, s, i, a, j, k) && s.phase[i].Reverting?
    ensures OtherScope(cfg, s, i, j, k)
  {
    TakingPhase(cfg, s, i, a, j, k);
    PeerCommitted(cfg, s, i, j);
    var op, need := cfg[i].ops[s.phase[i].remaining - 1], cfg[j].ops[k];
    assert op in cfg[i].ops && need in cfg[j].ops;
    hide Inv, Takes, Relied, InForce;
  }

  lemma TakingIsHarmful(cfg: Config, s: State, i: Id, a: Action, j: Id, k: nat)
    requires WellTyped(cfg) && Inv(cfg, s) && TakesFrom(cfg, s, i, a, j, k)
    ensures Harmful(cfg, s, i, a)
  {
    assert s.phase.Keys == cfg.Keys && i in s.phase;
    assert TakesSome(cfg, s, i, a);
    TakingPhase(cfg, s, i, a, j, k);
    hide Inv, WellTyped, OtherScope, TakesFrom, TakesSome;
    if s.phase[i].Reverting? {
      CriteriaSparesPeer(cfg, s, i, a, j, k);
    }
  }

  lemma HarmfulTakes(cfg: Config, s: State, i: Id, a: Action)
    requires Harmful(cfg, s, i, a)
    ensures TakesSome(cfg, s, i, a)
  {
    hide TakesFrom, OtherScope;
  }

  lemma TakesIffHarmful(cfg: Config, s: State, i: Id, a: Action)
    requires WellTyped(cfg) && Inv(cfg, s)
    ensures TakesSome(cfg, s, i, a) <==> Harmful(cfg, s, i, a)
  {
    hide Harmful, TakesFrom, WellTyped, Inv;
    if j, k: nat :| TakesFrom(cfg, s, i, a, j, k) {
      TakingIsHarmful(cfg, s, i, a, j, k);
    }
    if Harmful(cfg, s, i, a) {
      HarmfulTakes(cfg, s, i, a);
    }
  }

  /** What is relied on stays in place across a step exactly when the step is not harmful. */
  lemma StepRetainsIff(cfg: Config, s: State, i: Id, a: Action)
    requires WellTyped(cfg) && Inv(cfg, s) && Retained(cfg, s)
    requires Next(cfg, s, i, a).Some?
    ensures Next(cfg, s, i, a).value.phase.Keys == cfg.Keys
    ensures Retained(cfg, Next(cfg, s, i, a).value) <==> !Harmful(cfg, s, i, a)
  {
    assert s.phase.Keys == cfg.Keys && WellFormed(s.host);
    hide *;
    StepRetainsByTaking(cfg, s, i, a);
    TakesIffHarmful(cfg, s, i, a);
  }

  /** No step of the history is harmful. */
  ghost predicate Gentle(cfg: Config, s: State, history: seq<(Id, Action)>) {
    history != [] ==>
      var init, last := history[..|history| - 1], history[|history| - 1];
      Gentle(cfg, s, init) && (Run(cfg, s, init).Some? ==> !Harmful(cfg, Run(cfg, s, init).value, last.0, last.1))
  }

  /** At every point of the history all shared grants relied on are in place. */
  ghost predicate RetainedThroughout(cfg: Config, s: State, history: seq<(Id, Action)>) {
    && (history != [] ==> RetainedThroughout(cfg, s, history[..|history| - 1]))
    && (Run(cfg, s, history).Some? ==>
          var t := Run(cfg, s, history).value;
          t.phase.Keys == cfg.Keys && Retained(cfg, t))
  }

  lemma RetainedAtFirst(cfg: Config, host: World)
    ensures Initial(cfg, host).phase.Keys == cfg.Keys && Retained(cfg, Initial(cfg, host))
  {
  }

  lemma RetainedAtLast(cfg: Config, s: State, history: seq<(Id, Action)>)
    requires RetainedThroughout(cfg, s, history) && Run(cfg, s, history).Some?
    ensures var t := Run(cfg, s, history).value; t.phase.Keys == cfg.Keys && Retained(cfg, t)
  {
    hide Retained, Run;
  }

  /** An orderly history keeps shared grants in place throughout exactly if none of its steps is
      harmful. */
  lemma {:induction false} RetainedThroughoutIff(cfg: Config, host: World, history: seq<(Id, Action)>)
    requires WellTyped(cfg) && WellFormed(host)
    requires var s := Initial(cfg, host); Orderly(cfg, s, history) && Run(cfg, s, history).Some?
    ensures RetainedThroughout(cfg, Initial(cfg, host), history) <==> Gentle(cfg, Initial(cfg, host), history)
  {
    hide Next, WellTyped, WellFormed, Inv, Assumed, Harmful, Retained, Initial;
    if history == [] {
      RetainedAtFirst(cfg, host);
    } else {
      var init, last := history[..|history| - 1], history[|history| - 1];
      var mid := Run(cfg, Initial(cfg, host), init).value;
      RetainedThroughoutIff(cfg, host, init);
      RunKeepsInv(cfg, host, init);
      hide Orderly;
      if RetainedThroughout(cfg, Initial(cfg, host), init) {
        RetainedAtLast(cfg, Initial(cfg, host), init);
        StepRetainsIff(cfg, mid, last.0, last.1);
      }
    }
  }

  /** Over any orderly history without a harmful step, no shared grant is missing while a committing or
      committed instance relies on it. */
  lemma GrantsRetained(cfg: Config, host: World, history: seq<(Id, Action)>)
    requires WellTyped(cfg) && WellFormed(host)
    requires var s := Initial(cfg, host);
      Orderly(cfg, s, history) && Gentle(cfg, s, history) && Run(cfg, s, history).Some?
    ensures var s := Run(cfg, Initial(cfg, host), history).value;
      s.phase.Keys == cfg.Keys && Retained(cfg, s)
  {
    hide *;
    RetainedThroughoutIff(cfg, host, history);
    RetainedAtLast(cfg, Initial(cfg, host), history);
  }

  /** What two instances have in common is ensured or in user scope, and the one does not give it less
      than the other. */
  predicate Apart(a: Op, b: Op) {
    Shared(b) ==>
      && !Lessens(a, b)
      && (b.Grants() in a.Strips() && Needs(b) && !a.Ensured() ==> a.Type() == b.Type() == USER)
  }

  ghost predicate Separate(cfg: Config) {
    forall i, j, a, b :: i in cfg && j in cfg && i != j && a in cfg[i].ops && b in cfg[j].ops ==> Apart(a, b)
  }

  lemma ApartTaking(prog: Program, w: World, ph: Phase, a: Action, b: Op)
    requires Shared(b) && forall op :: op in prog.ops ==> Apart(op, b)
    ensures Takes(prog, w, ph, a, b) ==>
      ph.Reverting? && 0 < ph.remaining <= |prog.ops| && prog.ops[ph.remaining - 1].Type() == b.Type()
  {
    if ph.Committing? && ph.applied < |prog.ops| {
      assert prog.ops[ph.applied] in prog.ops;
    } else if (ph.Rolling? || ph.Reverting?) && 0 < ph.remaining <= |prog.ops| {
      assert prog.ops[ph.remaining - 1] in prog.ops;
    }
  }

  lemma SeparateIsHarmless(cfg: Config, s: State, i: Id, a: Action)
    requires Separate(cfg)
    ensures !Harmful(cfg, s, i, a)
  {
    hide Apart, Takes;
    forall j, k: nat | i in cfg && i in s.phase && j in cfg && j != i && k < |cfg[j].ops| && Shared(cfg[j].ops[k])
      ensures TakesFrom(cfg, s, i, a, j, k) ==> s.phase[i].Reverting? && !OtherScope(cfg, s, i, j, k)
    {
      assert cfg[j].ops[k] in cfg[j].ops;
      ApartTaking(cfg[i], s.host, s.phase[i], a, cfg[j].ops[k]);
    }
    hide Separate, OtherScope, InForce;
  }

  /** Instances that have in common only user-scoped grants, with the same permissions, keep them in any
      orderly history. */
  lemma SeparateRetains(cfg: Config, host: World, history: seq<(Id, Action)>)
    requires WellTyped(cfg) && WellFormed(host) && Separate(cfg)
    requires var s := Initial(cfg, host); Orderly(cfg, s, history) && Run(cfg, s, history).Some?
    ensures RetainedThroughout(cfg, Initial(cfg, host), history)
  {
    hide *;
    SeparateIsGentle(cfg, Initial(cfg, host), history);
    RetainedThroughoutIff(cfg, host, history);
  }

  lemma {:induction false} SeparateIsGentle(cfg: Config, s: State, history: seq<(Id, Action)>)
    requires Separate(cfg)
    ensures Gentle(cfg, s, history)
  {
    if history != [] {
      hide Separate, Harmful, Run;
      var init, last := history[..|history| - 1], history[|history| - 1];
      SeparateIsGentle(cfg, s, init);
      if Run(cfg, s, init).Some? {
        SeparateIsHarmless(cfg, Run(cfg, s, init).value, last.0, last.1);
      }
    }
  }

  /** An operation that can strip a shared grant carries the scope of that grant. */
  ghost predicate WellScoped(cfg: Config) {
    forall i, j, a, b ::
      i in cfg && j in cfg && a in cfg[i].ops && b in cfg[j].ops &&
      Shared(b) && !a.Ensured() && b.Grants() in a.Strips() ==>
      a.Type() == b.Type()
  }

  lemma WellScopedNeverCrosses(cfg: Config, s: State, i: Id, a: Action)
    requires WellScoped(cfg)
    ensures !CrossScoped(cfg, s, i, a)
  {
    forall j, k: nat | OtherScope(cfg, s, i, j, k) ensures !TakesFrom(cfg, s, i, a, j, k) {
      assert cfg[i].ops[s.phase[i].remaining - 1] in cfg[i].ops && cfg[j].ops[k] in cfg[j].ops;
    }
    hide TakesFrom;
  }

  /** A grant on the host after a step was there before and not stripped, or is new. */
  lemma HostStepKeys(cfg: Config, s: State, i: Id, a: Action, key: Key)
    requires WellFormed(s.host) && Next(cfg, s, i, a).Some? && Present(Next(cfg, s, i, a).value.host, key)
    ensures var ph := s.phase[i];
      || (Present(s.host, key) && key !in Stripped(cfg[i], ph, a))
      || (ph.Committing? && a.ApplyOk? && ph.applied < |cfg[i].ops| && key == cfg[i].ops[ph.applied].Grants())
  {
    NextParts(cfg, s, i, a);
    hide Next, LocalStep, FilesStep, WellFormed, Present, Apply, Revert;
    var ph, ops := s.phase[i], cfg[i].ops;
    if ph.Committing? && a.ApplyOk? {
      ApplyPresent(s.host, ops[ph.applied], key);
    } else if ph.Rolling? && a == RollBack(true) && 0 < ph.remaining <= |ops| {
      RevertKeys(s.host, ops[ph.remaining - 1], None);
    } else if ph.Reverting? && a == RevertOp(true) && 0 < ph.remaining <= |ops| {
      RevertKeys(s.host, ops[ph.remaining - 1], Some(ph.ec));
    }
  }
}

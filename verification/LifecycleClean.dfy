/** Conservation of grants over histories without faults. */
module LifecycleClean {
  import opened Wrappers
  import opened Enablements
  import opened Store
  import opened SystemOps
  import opened Lifecycle
  import opened LifecycleInvariants
  import opened LifecycleSafety

  /** An action nothing went wrong in. */
  predicate Faultless(a: Action) {
    match a
    case LockCommit => true
    case Save(_, ok) => ok
    case ApplyOk => true
    case CommitDone => true
    case LockClean => true
    case Destroy(ok) => ok
    case Scan(_, unreadable, _) => unreadable == {}
    case RevertOp(ok) => ok
    case RevertDone => true
    case _ => false
  }

  ghost predicate AllFaultless(history: seq<(Id, Action)>) {
    forall k :: 0 <= k < |history| ==> Faultless(history[k].1)
  }

  /** An operation that removes the key when it is reverted. */
  predicate Frees(op: Op, key: Key) {
    !op.Ensured() && op.Grants() == key
  }

  ghost predicate SomeFrees(ops: seq<Op>, t: Bits, key: Key) {
    exists k :: 0 <= k < |ops| && ops[k].Type() == t && Frees(ops[k], key)
  }

  /** All instances have the same user-scoped grants, and those naming a service the same grants
      for it. */
  ghost predicate SameShared(cfg: Config) {
    forall i, j, t, key :: i in cfg && j in cfg && SomeFrees(cfg[i].ops, t, key) ==>
      && (t == USER ==> SomeFrees(cfg[j].ops, t, key))
      && (IsService(t) && cfg[j].header & t != 0 ==> SomeFrees(cfg[j].ops, t, key))
  }

  /** An instance that will revert, among its first n operations, one that frees the key. */
  ghost predicate WillFree(prog: Program, ph: Phase, key: Key) {
    exists k :: 0 <= k < |prog.ops| && Frees(prog.ops[k], key) &&
      if ph.Committing? then k < ph.applied
      else if ph.Reverting? then k < ph.remaining && prog.ops[k].Reverts(Some(ph.ec))
      else Committed(ph)
  }

  ghost predicate Owed(cfg: Config, s: State, key: Key) {
    exists i :: i in cfg && i in s.phase && WillFree(cfg[i], s.phase[i], key)
  }

  /** A grant nobody ever takes back: it was there before, or an ensured directory. */
  ghost predicate Permanent(cfg: Config, host: World, key: Key) {
    Present(host, key) || exists i, op :: i in cfg && op in cfg[i].ops && op.Ensured() && op.Grants() == key
  }

  ghost predicate Conserved(cfg: Config, host: World, s: State) {
    && (forall i :: i in s.phase ==> Healthy(s.phase[i]))
    && (forall i :: i in s.files ==> i in s.phase && HasEntryPhase(s.phase[i]))
    && (forall key :: Present(s.host, key) ==> Permanent(cfg, host, key) || Owed(cfg, s, key))
  }

  /** The phases a faultless instance goes through. */
  predicate Healthy(ph: Phase) {
    && !ph.Doomed? && !ph.Crashed? && !ph.Rolling?
    && (ph.Cleaning? ==> ph.committed && ph.handle)
    && (ph.Destroyed? ==> ph.committed)
  }

  predicate HasEntryPhase(ph: Phase) {
    ph.Committing? || ph.Running? || ph.Cleaning?
  }

  lemma HealthyStep(prog: Program, ph: Phase, a: Action)
    requires Healthy(ph) && Faultless(a) && LocalStep(prog, ph, a).Some?
    ensures Healthy(LocalStep(prog, ph, a).value)
    ensures HasEntryPhase(LocalStep(prog, ph, a).value) <==> (HasEntryPhase(ph) || a.Save?) && !a.Destroy?
    ensures a.Save? ==> ph.Locked?
    ensures a.Scan? ==> ph.Destroyed?
    ensures a.RevertOp? ==> ph.Reverting?
  {
  }

  /** A key an instance will free it still will free after a step that neither scans nor reverts. */
  lemma WillFreeStep(prog: Program, ph: Phase, a: Action, key: Key)
    requires Healthy(ph) && Faultless(a) && LocalStep(prog, ph, a).Some? && !a.Scan? && !a.RevertOp?
    requires WillFree(prog, ph, key)
    ensures WillFree(prog, LocalStep(prog, ph, a).value, key)
  {
  }

  /** A scan leaves every key the scanner would have freed to itself or to a peer that survives. */
  lemma ScanKeepsOwed(cfg: Config, host: World, s: State, i: Id, a: Action, key: Key)
    requires WellTyped(cfg) && SameShared(cfg) && Inv(cfg, s) && Conserved(cfg, host, s)
    requires Assumed(s, a) && Faultless(a) && a.Scan? && Next(cfg, s, i, a).Some?
    requires WillFree(cfg[i], s.phase[i], key)
    ensures Owed(cfg, Next(cfg, s, i, a).value, key)
  {
    NextParts(cfg, s, i, a);
    HealthyStep(cfg[i], s.phase[i], a);
    var s', ops := Next(cfg, s, i, a).value, cfg[i].ops;
    assert s'.phase[i] == Reverting(|ops|, Criteria(a.headers), s.phase[i].locked);
    var k :| 0 <= k < |ops| && Frees(ops[k], key);
    if HasType(Some(Criteria(a.headers)), ops[k].Type()) {
      assert WillFree(cfg[i], s'.phase[i], key);
    } else {
      var j := PeerFrees(cfg, host, s, i, a, k);
      CommittedFrees(cfg[j], s'.phase[j], ops[k].Type(), key);
    }
  }

  lemma CommittedFrees(prog: Program, ph: Phase, t: Bits, key: Key)
    requires Committed(ph) && SomeFrees(prog.ops, t, key)
    ensures WillFree(prog, ph, key)
  {
    var k :| 0 <= k < |prog.ops| && prog.ops[k].Type() == t && Frees(prog.ops[k], key);
  }

  /** What the scanner will not free itself, a committed peer will. */
  lemma PeerFrees(cfg: Config, host: World, s: State, i: Id, a: Action, k: nat) returns (j: Id)
    requires WellTyped(cfg) && SameShared(cfg) && Inv(cfg, s) && Conserved(cfg, host, s)
    requires i in cfg && s.phase[i].Destroyed? && k < |cfg[i].ops| && !cfg[i].ops[k].Ensured()
    requires a.Scan? && Assumed(s, a) && a.headers == Headers(s.files, a.order, a.unreadable)
    requires !HasType(Some(Criteria(a.headers)), cfg[i].ops[k].Type())
    ensures j in cfg && j != i && Committed(s.phase[j])
    ensures SomeFrees(cfg[j].ops, cfg[i].ops[k].Type(), cfg[i].ops[k].Grants())
  {
    var op := cfg[i].ops[k];
    assert op in cfg[i].ops;
    ScopeSpared(a.headers, op.Type());
    j := Survivor(cfg, host, s, i, a, op.Type());
    assert SomeFrees(cfg[i].ops, op.Type(), op.Grants());
  }

  /** A scope the scan spares is that of a committed peer. */
  lemma Survivor(cfg: Config, host: World, s: State, i: Id, a: Action, t: Bits) returns (j: Id)
    requires Inv(cfg, s) && Conserved(cfg, host, s) && i in cfg && s.phase[i].Destroyed?
    requires a.Scan? && Assumed(s, a) && a.headers == Headers(s.files, a.order, a.unreadable)
    requires t == USER || IsService(t)
    requires if t == USER then SomeLoaded(a.headers) else SomeHolds(a.headers, t)
    ensures j in cfg && j != i && Committed(s.phase[j])
    ensures t != USER ==> cfg[j].header & t != 0
  {
    var k :| 0 <= k < |a.headers| && if t == USER then a.headers[k].Some? else Holds(a.headers[k], t);
    j := a.order[k];
    assert j in s.files;
    assert InstanceInv(cfg, s, i) && InstanceInv(cfg, s, j);
  }

  /** A revert step frees its key or leaves the debt to the rest. */
  lemma RevertKeepsWillFree(prog: Program, ph: Phase, key: Key)
    requires ph.Reverting? && 0 < ph.remaining <= |prog.ops| && WillFree(prog, ph, key)
    requires key !in Stripped(prog, ph, RevertOp(true))
    ensures WillFree(prog, ph.(remaining := ph.remaining - 1), key)
  {
    var k :| 0 <= k < |prog.ops| && Frees(prog.ops[k], key) && k < ph.remaining && prog.ops[k].Reverts(Some(ph.ec));
    assert k != ph.remaining - 1;
  }

  lemma OwnStepKeepsWillFree(cfg: Config, host: World, s: State, i: Id, a: Action, key: Key)
    requires Inv(cfg, s) && Conserved(cfg, host, s) && Faultless(a) && !a.Scan? && Next(cfg, s, i, a).Some?
    requires i in cfg && i in s.phase && WillFree(cfg[i], s.phase[i], key) && key !in Stripped(cfg[i], s.phase[i], a)
    ensures i in Next(cfg, s, i, a).value.phase && WillFree(cfg[i], Next(cfg, s, i, a).value.phase[i], key)
  {
    NextParts(cfg, s, i, a);
    HealthyStep(cfg[i], s.phase[i], a);
    if a.RevertOp? {
      assert InstanceInv(cfg, s, i);
      RevertKeepsWillFree(cfg[i], s.phase[i], key);
    } else {
      WillFreeStep(cfg[i], s.phase[i], a, key);
    }
    hide WillFree, Stripped, Next, HostStep, FilesStep;
  }

  lemma StepKeepsOwed(cfg: Config, host: World, s: State, i: Id, a: Action, key: Key)
    requires WellTyped(cfg) && SameShared(cfg) && Inv(cfg, s) && Conserved(cfg, host, s)
    requires Assumed(s, a) && Faultless(a) && Next(cfg, s, i, a).Some?
    requires Owed(cfg, s, key) && key !in Stripped(cfg[i], s.phase[i], a)
    ensures Owed(cfg, Next(cfg, s, i, a).value, key)
  {
    NextParts(cfg, s, i, a);
    var j :| j in cfg && j in s.phase && WillFree(cfg[j], s.phase[j], key);
    hide *;
    if j != i {
      OwedBy(cfg, Next(cfg, s, i, a).value, j, key);
    } else if a.Scan? {
      ScanKeepsOwed(cfg, host, s, i, a, key);
    } else {
      OwnStepKeepsWillFree(cfg, host, s, i, a, key);
      OwedBy(cfg, Next(cfg, s, i, a).value, i, key);
    }
  }

  lemma OwedBy(cfg: Config, s: State, i: Id, key: Key)
    requires i in cfg && i in s.phase && WillFree(cfg[i], s.phase[i], key)
    ensures Owed(cfg, s, key)
  {
  }

  /** A grant a step adds is permanent or owed by the instance that took the step. */
  lemma NewGrantOwed(cfg: Config, host: World, s: State, i: Id, a: Action)
    requires Next(cfg, s, i, a).Some? && s.phase[i].Committing? && a.ApplyOk? && s.phase[i].applied < |cfg[i].ops|
    ensures var key := cfg[i].ops[s.phase[i].applied].Grants();
      Permanent(cfg, host, key) || Owed(cfg, Next(cfg, s, i, a).value, key)
  {
    NextParts(cfg, s, i, a);
    var op := cfg[i].ops[s.phase[i].applied];
    assert op in cfg[i].ops;
    if !op.Ensured() {
      var s' := Next(cfg, s, i, a).value;
      assert Frees(cfg[i].ops[s.phase[i].applied], op.Grants());
      assert WillFree(cfg[i], s'.phase[i], op.Grants());
    }
  }

  lemma StepConservesKey(cfg: Config, host: World, s: State, i: Id, a: Action, key: Key)
    requires WellTyped(cfg) && SameShared(cfg) && Inv(cfg, s) && Conserved(cfg, host, s)
    requires Assumed(s, a) && Faultless(a) && Next(cfg, s, i, a).Some?
    requires Present(Next(cfg, s, i, a).value.host, key)
    ensures Permanent(cfg, host, key) || Owed(cfg, Next(cfg, s, i, a).value, key)
  {
    HostStepKeys(cfg, s, i, a, key);
    if Present(s.host, key) && key !in Stripped(cfg[i], s.phase[i], a) {
      if !Permanent(cfg, host, key) {
        StepKeepsOwed(cfg, host, s, i, a, key);
      }
    } else {
      NewGrantOwed(cfg, host, s, i, a);
    }
  }

  lemma StepConserves(cfg: Config, host: World, s: State, i: Id, a: Action)
    requires WellTyped(cfg) && SameShared(cfg) && Inv(cfg, s) && Conserved(cfg, host, s)
    requires Assumed(s, a) && Faultless(a) && Next(cfg, s, i, a).Some?
    ensures Conserved(cfg, host, Next(cfg, s, i, a).value)
  {
    NextParts(cfg, s, i, a);
    HealthyStep(cfg[i], s.phase[i], a);
    FilesStepKeeps(cfg, s.files, i, a);
    forall key | Present(Next(cfg, s, i, a).value.host, key)
      ensures Permanent(cfg, host, key) || Owed(cfg, Next(cfg, s, i, a).value, key)
    {
      StepConservesKey(cfg, host, s, i, a, key);
    }
  }

  lemma {:induction false} RunConserves(cfg: Config, host: World, history: seq<(Id, Action)>)
    requires WellTyped(cfg) && SameShared(cfg) && WellFormed(host) && AllFaultless(history)
    requires var s := Initial(cfg, host); Orderly(cfg, s, history) && Run(cfg, s, history).Some?
    ensures Conserved(cfg, host, Run(cfg, Initial(cfg, host), history).value)
  {
    if history != [] {
      var init, last := history[..|history| - 1], history[|history| - 1];
      assert Faultless(last.1);
      assert AllFaultless(init) by {
        forall k | 0 <= k < |init| ensures Faultless(init[k].1) {
          assert init[k] == history[k];
        }
      }
      RunConserves(cfg, host, init);
      RunKeepsInv(cfg, host, init);
      hide Conserved;
      hide Inv;
      hide WellTyped;
      hide SameShared;
      hide Next;
      StepConserves(cfg, host, Run(cfg, Initial(cfg, host), init).value, last.0, last.1);
    }
  }

  /** When every instance has finished without a fault, every grant still on the host was there
      before the first one started or is an ensured directory. */
  lemma NothingLeftBehind(cfg: Config, host: World, history: seq<(Id, Action)>, key: Key)
    requires WellTyped(cfg) && SameShared(cfg) && WellFormed(host) && AllFaultless(history)
    requires var s := Initial(cfg, host); Orderly(cfg, s, history) && Run(cfg, s, history).Some?
    requires var s := Run(cfg, Initial(cfg, host), history).value;
      (forall i :: i in s.phase ==> s.phase[i].Final?) && Present(s.host, key)
    ensures Permanent(cfg, host, key)
  {
    RunConserves(cfg, host, history);
    var s := Run(cfg, Initial(cfg, host), history).value;
    assert !Owed(cfg, s, key);
  }
}

/** Histories: three that show where the guarantees on shared grants stop, and a complete one that meets
    all they take for granted. */
module LifecycleLimits {
  import opened Wrappers
  import opened Enablements
  import opened Store
  import opened SystemOps
  import opened Lifecycle
  import opened LifecycleClean
  import opened LifecycleSafety
  import opened LifecycleUnlocked

  lemma Extend(cfg: Config, s0: State, history: seq<(Id, Action)>, i: Id, a: Action)
    requires Run(cfg, s0, history).Some? && Next(cfg, Run(cfg, s0, history).value, i, a).Some?
    ensures Run(cfg, s0, history + [(i, a)]) == Next(cfg, Run(cfg, s0, history).value, i, a)
    ensures Orderly(cfg, s0, history) && (a.Scan? || a.LockCleanFail? ==> Assumed(Run(cfg, s0, history).value, a)) ==>
      Orderly(cfg, s0, history + [(i, a)])
    ensures Loose(cfg, s0, history) && (a.Scan? ==> Sighted(Run(cfg, s0, history).value, a)) ==>
      Loose(cfg, s0, history + [(i, a)])
  {
    assert (history + [(i, a)])[..|history|] == history;
  }

  lemma LockNext(cfg: Config, s: State, i: Id)
    requires i in cfg && i in s.phase && s.phase[i] == Starting && s.lock == None
    ensures Next(cfg, s, i, LockCommit) == Some(s.(phase := s.phase[i := Locked], lock := Some(i)))
  {
  }

  lemma SaveNext(cfg: Config, s: State, i: Id)
    requires i in cfg && i in s.phase && s.phase[i] == Locked && s.lock == Some(i) && i !in s.files
    ensures Next(cfg, s, i, Save(NoFault, true)) == Some(s.(phase := s.phase[i := Committing(0)],
      files := s.files[i := EncodeHeader(cfg[i].header) + cfg[i].body]))
  {
  }

  lemma ApplyNext(cfg: Config, s: State, i: Id, k: nat)
    requires i in cfg && i in s.phase && s.phase[i] == Committing(k) && s.lock == Some(i)
    requires k < |cfg[i].ops| && Apply(s.host, cfg[i].ops[k]).Some?
    ensures Next(cfg, s, i, ApplyOk) == Some(s.(phase := s.phase[i := Committing(k + 1)],
      host := Apply(s.host, cfg[i].ops[k]).value))
    ensures Next(cfg, s, i, ApplyFail) == Some(s.(phase := s.phase[i := Rolling(k)]))
  {
  }

  lemma FailNext(cfg: Config, s: State, i: Id, k: nat)
    requires i in cfg && i in s.phase && s.phase[i] == Committing(k) && s.lock == Some(i)
    ensures k < |cfg[i].ops| ==> Next(cfg, s, i, ApplyFail) == Some(s.(phase := s.phase[i := Rolling(k)]))
    ensures k == |cfg[i].ops| ==> Next(cfg, s, i, CommitDone) == Some(s.(phase := s.phase[i := Running], lock := None))
  {
  }

  lemma RollNext(cfg: Config, s: State, i: Id, k: nat)
    requires i in cfg && i in s.phase && s.phase[i] == Rolling(k) && s.lock == Some(i) && 0 < k <= |cfg[i].ops|
    requires Revert(s.host, cfg[i].ops[k - 1], None).Some?
    ensures Next(cfg, s, i, RollBack(true)) == Some(s.(phase := s.phase[i := Rolling(k - 1)],
      host := Revert(s.host, cfg[i].ops[k - 1], None).value))
  {
  }

  /** An instance locks the segment, saves its entry and applies its first operation. */
  lemma AppliesFirst(cfg: Config, s0: State, history: seq<(Id, Action)>, s: State, i: Id)
    requires Run(cfg, s0, history) == Some(s)
    requires i in cfg && i in s.phase && s.phase[i] == Starting && s.lock == None && i !in s.files
    requires |cfg[i].ops| >= 1 && Apply(s.host, cfg[i].ops[0]).Some?
    ensures var h := history + [(i, LockCommit)] + [(i, Save(NoFault, true))] + [(i, ApplyOk)];
      && (Orderly(cfg, s0, history) ==> Orderly(cfg, s0, h))
      && (Loose(cfg, s0, history) ==> Loose(cfg, s0, h))
      && Run(cfg, s0, h) == Some(State(s.phase[i := Committing(1)], Some(i),
          s.files[i := EncodeHeader(cfg[i].header) + cfg[i].body], Apply(s.host, cfg[i].ops[0]).value))
  {
    hide Next;
    hide Apply;
    hide Run;
    hide Orderly;
    hide Loose;
    hide EncodeHeader;
    LockNext(cfg, s, i);
    Extend(cfg, s0, history, i, LockCommit);
    var h1, s1 := history + [(i, LockCommit)], Next(cfg, s, i, LockCommit).value;
    SaveNext(cfg, s1, i);
    Extend(cfg, s0, h1, i, Save(NoFault, true));
    var h2, s2 := h1 + [(i, Save(NoFault, true))], Next(cfg, s1, i, Save(NoFault, true)).value;
    ApplyNext(cfg, s2, i, 0);
    Extend(cfg, s0, h2, i, ApplyOk);
    assert s2.phase[i := Committing(1)] == s.phase[i := Committing(1)];
  }

  /** The steps of an instance that commits its only operation. */
  function CommitSteps(i: Id): seq<(Id, Action)> {
    [(i, LockCommit), (i, Save(NoFault, true)), (i, ApplyOk), (i, CommitDone)]
  }

  lemma CommitsOne(cfg: Config, s0: State, history: seq<(Id, Action)>, s: State, i: Id)
    requires Run(cfg, s0, history) == Some(s)
    requires i in cfg && i in s.phase && s.phase[i] == Starting && s.lock == None && i !in s.files
    requires |cfg[i].ops| == 1 && Apply(s.host, cfg[i].ops[0]).Some?
    ensures var h := history + CommitSteps(i);
      && (Orderly(cfg, s0, history) ==> Orderly(cfg, s0, h))
      && (Loose(cfg, s0, history) ==> Loose(cfg, s0, h))
      && Run(cfg, s0, h) == Some(State(s.phase[i := Running], None,
          s.files[i := EncodeHeader(cfg[i].header) + cfg[i].body], Apply(s.host, cfg[i].ops[0]).value))
  {
    hide Next, Apply, Run, Orderly, Loose, EncodeHeader;
    AppliesFirst(cfg, s0, history, s, i);
    var h := history + [(i, LockCommit)] + [(i, Save(NoFault, true))] + [(i, ApplyOk)];
    var s1 := Run(cfg, s0, h).value;
    FailNext(cfg, s1, i, 1);
    Extend(cfg, s0, h, i, CommitDone);
    assert h + [(i, CommitDone)] == history + CommitSteps(i);
    assert s1.phase[i := Running] == s.phase[i := Running];
  }

  function TwoX11(user: string): Config {
    map[0 := Program(X11, [], [Xhost(user)]),
        1 := Program(X11, [], [Xhost(user), AclUpdate(USER, ["missing"], [4])])]
  }

  lemma TwoX11IsProper(user: string)
    ensures WellTyped(TwoX11(user)) && WellScoped(TwoX11(user))
  {
    var cfg := TwoX11(user);
    assert X11 & !MASK == 0 && X11 & X11 != 0;
    forall i, op | i in cfg && op in cfg[i].ops
      ensures op == Xhost(user) || op == AclUpdate(USER, ["missing"], [4])
    {
    }
    assert WellTyped(cfg) by {
      hide WellScoped;
    }
    hide WellTyped, TwoX11;
  }

  /** The failed commit of one instance takes the X11 entry of a committed peer away. */
  lemma RollbackStripsPeer(user: string) returns (history: seq<(Id, Action)>)
    ensures var cfg, host := TwoX11(user), World(map[[] := Dir(0)], map[], {});
      var s0 := Initial(cfg, host);
      && WellTyped(cfg) && WellScoped(cfg) && WellFormed(host)
      && Orderly(cfg, s0, history) && Run(cfg, s0, history).Some?
      && var s := Run(cfg, s0, history).value;
        s.phase.Keys == cfg.Keys && s.phase[0] == Running && user !in s.host.hosts
  {
    TwoX11IsProper(user);
    hide WellTyped;
    hide WellScoped;
    hide Next;
    hide Orderly;
    hide EncodeHeader;
    hide Run;
    hide LocalStep;
    BareHost();
    hide WellFormed, Loose, Assumed, Sighted;
    var cfg, host := TwoX11(user), World(map[[] := Dir(0)], map[], {});
    var s0 := Initial(cfg, host);
    EmptyOrderly(cfg, s0);
    CommitsOne(cfg, s0, [], s0, 0);
    var h := [] + CommitSteps(0);
    var s2 := Run(cfg, s0, h).value;
    AppliesFirst(cfg, s0, h, s2, 1);
    h := h + [(1, LockCommit)] + [(1, Save(NoFault, true))] + [(1, ApplyOk)];
    var s3 := Run(cfg, s0, h).value;
    FailNext(cfg, s3, 1, 1);
    Extend(cfg, s0, h, 1, ApplyFail);
    h := h + [(1, ApplyFail)];
    var s4 := Next(cfg, s3, 1, ApplyFail).value;
    RollNext(cfg, s4, 1, 1);
    Extend(cfg, s0, h, 1, RollBack(true));
    history := h + [(1, RollBack(true))];
  }

  lemma EmptyOrderly(cfg: Config, s: State)
    ensures Orderly(cfg, s, []) && Loose(cfg, s, []) && Run(cfg, s, []) == Some(s)
  {
  }

  lemma BareHost()
    ensures WellFormed(World(map[[] := Dir(0)], map[], {}))
  {
  }

  function Bare(acl: map<Path, seq<Perm>>): World {
    World(map[[] := Dir(0)], acl, {})
  }

  /** Two instances with a user-scoped entry at the same path. */
  function Unequal(perms: seq<Perm>, less: seq<Perm>): Config {
    map[0 := Program(0, [], [AclUpdate(USER, [], perms)]), 1 := Program(0, [], [AclUpdate(USER, [], less)])]
  }

  lemma UnequalIsProper(perms: seq<Perm>, less: seq<Perm>)
    ensures WellTyped(Unequal(perms, less)) && WellScoped(Unequal(perms, less))
  {
    var cfg := Unequal(perms, less);
    forall i, op | i in cfg && op in cfg[i].ops ensures op.AclUpdate? && op.Type() == USER {
    }
    assert WellTyped(cfg) by {
      hide WellScoped;
    }
    hide WellTyped, Unequal;
  }

  /** The access control entries once both have committed. */
  function Lessened(less: seq<Perm>): map<Path, seq<Perm>> {
    if less == [] then map[] else map[[] := less]
  }

  lemma UnequalHosts(perms: seq<Perm>, less: seq<Perm>, x: Perm)
    requires x in perms && x !in less
    ensures Apply(Bare(map[]), AclUpdate(USER, [], perms)) == Some(Bare(map[[] := perms]))
    ensures Apply(Bare(map[[] := perms]), AclUpdate(USER, [], less)) == Some(Bare(Lessened(less)))
    ensures !Provides(Bare(Lessened(less)), AclUpdate(USER, [], perms))
  {
    var acl := Bare(map[[] := perms]).acl;
    assert acl - {[]} == map[] && acl[[] := less] == map[[] := less];
  }

  function Phases(first: Phase, second: Phase): map<Id, Phase> {
    map[0 := first, 1 := second]
  }

  lemma PhasesUpdate(first: Phase, second: Phase, ph: Phase)
    ensures 0 in Phases(first, second) && Phases(first, second)[0] == first
    ensures 1 in Phases(first, second) && Phases(first, second)[1] == second
    ensures Phases(first, second)[0 := ph] == Phases(ph, second)
    ensures Phases(first, second)[1 := ph] == Phases(first, ph)
  {
  }

  lemma UnequalStart(perms: seq<Perm>, less: seq<Perm>)
    ensures var cfg := Unequal(perms, less);
      && 0 in cfg && 1 in cfg && cfg[0].ops == [AclUpdate(USER, [], perms)] && cfg[1].ops == [AclUpdate(USER, [], less)]
      && WellTyped(cfg) && WellScoped(cfg) && WellFormed(Bare(map[]))
      && Initial(cfg, Bare(map[])) == State(Phases(Starting, Starting), None, map[], Bare(map[]))
  {
    UnequalIsProper(perms, less);
    BareHost();
    hide WellTyped, WellScoped, WellFormed;
  }

  lemma StepsFaultless(history: seq<(Id, Action)>)
    requires history == CommitSteps(0) + CommitSteps(1)
    ensures AllFaultless(history) && forall n :: 0 <= n < |history| ==> !history[n].1.RevertOp?
  {
  }

  lemma FirstCommits(perms: seq<Perm>, less: seq<Perm>, x: Perm) returns (files: map<Id, seq<Byte>>)
    requires x in perms && x !in less
    ensures var cfg, s0 := Unequal(perms, less), Initial(Unequal(perms, less), Bare(map[]));
      && Orderly(cfg, s0, CommitSteps(0))
      && Run(cfg, s0, CommitSteps(0)) ==
        Some(State(Phases(Running, Starting), None, files, Bare(map[[] := perms])))
    ensures 1 !in files
  {
    UnequalStart(perms, less);
    UnequalHosts(perms, less, x);
    hide *;
    var cfg, s0 := Unequal(perms, less), Initial(Unequal(perms, less), Bare(map[]));
    PhasesUpdate(Starting, Starting, Running);
    EmptyOrderly(cfg, s0);
    CommitsOne(cfg, s0, [], s0, 0);
    assert [] + CommitSteps(0) == CommitSteps(0);
    files := Run(cfg, s0, CommitSteps(0)).value.files;
  }

  lemma SecondCommits(perms: seq<Perm>, less: seq<Perm>, x: Perm) returns (files: map<Id, seq<Byte>>)
    requires x in perms && x !in less
    ensures var cfg, s0 := Unequal(perms, less), Initial(Unequal(perms, less), Bare(map[]));
      && Orderly(cfg, s0, CommitSteps(0) + CommitSteps(1))
      && Run(cfg, s0, CommitSteps(0) + CommitSteps(1)) ==
        Some(State(Phases(Running, Running), None, files, Bare(Lessened(less))))
  {
    UnequalStart(perms, less);
    UnequalHosts(perms, less, x);
    hide *;
    var cfg, s0 := Unequal(perms, less), Initial(Unequal(perms, less), Bare(map[]));
    files := FirstCommits(perms, less, x);
    var s := State(Phases(Running, Starting), None, files, Bare(map[[] := perms]));
    PhasesUpdate(Running, Starting, Running);
    CommitsOne(cfg, s0, CommitSteps(0), s, 1);
    files := Run(cfg, s0, CommitSteps(0) + CommitSteps(1)).value.files;
  }

  /** The commit of one instance takes a permission from a committed one, when it updates the entry that
      both have with others, or with none; nothing fails and nothing is reverted. */
  lemma CommitLessensPeer(perms: seq<Perm>, less: seq<Perm>, x: Perm)
    requires x in perms && x !in less
    ensures var cfg, s0 := Unequal(perms, less), Initial(Unequal(perms, less), Bare(map[]));
      var history := CommitSteps(0) + CommitSteps(1);
      && WellTyped(cfg) && WellScoped(cfg) && WellFormed(s0.host)
      && Orderly(cfg, s0, history) && AllFaultless(history)
      && (forall n :: 0 <= n < |history| ==> !history[n].1.RevertOp?)
      && Run(cfg, s0, history).Some?
      && var s := Run(cfg, s0, history).value;
        && s.phase == Phases(Running, Running) && s.host.acl == Lessened(less)
        && !Provides(s.host, AclUpdate(USER, [], perms))
  {
    UnequalStart(perms, less);
    UnequalHosts(perms, less, x);
    StepsFaultless(CommitSteps(0) + CommitSteps(1));
    assert Bare(Lessened(less)).acl == Lessened(less);
    hide *;
    var files := SecondCommits(perms, less, x);
  }

  lemma CleanNext(cfg: Config, s: State, i: Id, l: bool)
    requires i in cfg && i in s.phase && i in s.files
    ensures s.phase[i] == Running && !l ==>
      Next(cfg, s, i, LockCleanFail) == Some(s.(phase := s.phase[i := Cleaning(true, true, false)]))
    ensures s.phase[i] == Running && l && s.lock.None? ==>
      Next(cfg, s, i, LockClean) == Some(s.(phase := s.phase[i := Cleaning(true, true, true)], lock := Some(i)))
    ensures s.phase[i] == Cleaning(true, true, l) && (l ==> s.lock == Some(i)) ==>
      Next(cfg, s, i, Destroy(true)) == Some(s.(phase := s.phase[i := Destroyed(true, l)], files := s.files - {i}))
  {
  }

  lemma EmptyScanNext(cfg: Config, s: State, i: Id, l: bool)
    requires i in cfg && i in s.phase && s.files == map[] && (l ==> s.lock == Some(i))
    requires s.phase[i] == Destroyed(true, l)
    ensures Next(cfg, s, i, Scan([], {}, [])) ==
      Some(s.(phase := s.phase[i := Reverting(|cfg[i].ops|, Criteria([]), l)]))
    ensures IsListing(s.files, [])
  {
  }

  lemma RevertNext(cfg: Config, s: State, i: Id, k: nat, ec: Bits, l: bool)
    requires i in cfg && i in s.phase && s.phase[i] == Reverting(k, ec, l) && (l ==> s.lock == Some(i))
    requires 0 < k <= |cfg[i].ops| && Revert(s.host, cfg[i].ops[k - 1], Some(ec)).Some?
    ensures Next(cfg, s, i, RevertOp(true)) == Some(s.(phase := s.phase[i := Reverting(k - 1, ec, l)],
      host := Revert(s.host, cfg[i].ops[k - 1], Some(ec)).value))
  {
  }

  lemma DoneNext(cfg: Config, s: State, i: Id, ec: Bits)
    requires i in cfg && i in s.phase && s.phase[i] == Reverting(0, ec, true) && s.lock == Some(i)
    ensures Next(cfg, s, i, RevertDone) == Some(s.(phase := s.phase[i := Final], lock := None))
  {
  }

  lemma Then(cfg: Config, s0: State, history: seq<(Id, Action)>, s: State, i: Id, a: Action) returns (s': State)
    requires Run(cfg, s0, history) == Some(s) && Next(cfg, s, i, a).Some?
    ensures Some(s') == Next(cfg, s, i, a) == Run(cfg, s0, history + [(i, a)])
    ensures Loose(cfg, s0, history) && (a.Scan? ==> Sighted(s, a)) ==> Loose(cfg, s0, history + [(i, a)])
  {
    Extend(cfg, s0, history, i, a);
    s' := Next(cfg, s, i, a).value;
  }

  /** Without the lock, an instance alone in the segment destroys its entry and finds nobody. */
  lemma ScansUnlocked(cfg: Config, s0: State, history: seq<(Id, Action)>, s: State, i: Id)
    requires Run(cfg, s0, history) == Some(s)
    requires i in cfg && i in s.phase && s.phase[i] == Running && i in s.files && s.files - {i} == map[]
    ensures Run(cfg, s0, history + [(i, LockCleanFail)] + [(i, Destroy(true))] + [(i, Scan([], {}, []))]) ==
      Some(s.(phase := s.phase[i := Reverting(|cfg[i].ops|, Criteria([]), false)], files := map[]))
    ensures Loose(cfg, s0, history) ==>
      Loose(cfg, s0, history + [(i, LockCleanFail)] + [(i, Destroy(true))] + [(i, Scan([], {}, []))])
  {
    hide Next;
    hide Run;
    hide Loose;
    CleanNext(cfg, s, i, false);
    var s1 := Then(cfg, s0, history, s, i, LockCleanFail);
    CleanNext(cfg, s1, i, false);
    var h1 := history + [(i, LockCleanFail)];
    var s2 := Then(cfg, s0, h1, s1, i, Destroy(true));
    EmptyScanNext(cfg, s2, i, false);
    var s3 := Then(cfg, s0, h1 + [(i, Destroy(true))], s2, i, Scan([], {}, []));
    assert s3.phase == s.phase[i := Reverting(|cfg[i].ops|, Criteria([]), false)];
  }

  function Twins(perms: seq<Perm>): Config {
    map[0 := Program(0, [], [AclUpdate(USER, [], perms)]), 1 := Program(0, [], [AclUpdate(USER, [], perms)])]
  }

  lemma TwinsAreProper(perms: seq<Perm>)
    requires perms != []
    ensures WellTyped(Twins(perms)) && WellScoped(Twins(perms))
  {
    var cfg := Twins(perms);
    forall i, op | i in cfg && op in cfg[i].ops ensures op == AclUpdate(USER, [], perms) {
    }
    assert WellTyped(cfg) by {
      hide WellScoped;
    }
    hide WellTyped, Twins;
  }

  /** One twin commits, fails to lock the segment as it ends, and finds no other entry. */
  lemma TwinScans(perms: seq<Perm>) returns (history: seq<(Id, Action)>)
    requires perms != []
    ensures var cfg, s0 := Twins(perms), Initial(Twins(perms), Bare(map[]));
      && Loose(cfg, s0, history)
      && Run(cfg, s0, history) ==
        Some(State(map[0 := Reverting(1, Criteria([]), false), 1 := Starting], None, map[], Bare(map[[] := perms])))
  {
    hide Next, EncodeHeader, Run, Orderly, Loose, LocalStep, Criteria, Assumed, Sighted;
    var cfg := Twins(perms);
    var s0 := Initial(cfg, Bare(map[]));
    EmptyOrderly(cfg, s0);
    CommitsOne(cfg, s0, [], s0, 0);
    history := [] + CommitSteps(0);
    var s := Run(cfg, s0, history).value;
    ScansUnlocked(cfg, s0, history, s, 0);
    history := history + [(0, LockCleanFail)] + [(0, Destroy(true))] + [(0, Scan([], {}, []))];
    assert Run(cfg, s0, history).value.phase == map[0 := Reverting(1, Criteria([]), false), 1 := Starting];
  }

  /** The other twin commits after that scan. */
  lemma TwinCommits(perms: seq<Perm>, begun: seq<(Id, Action)>) returns (history: seq<(Id, Action)>)
    requires perms != []
    requires var cfg, s0 := Twins(perms), Initial(Twins(perms), Bare(map[]));
      && Loose(cfg, s0, begun)
      && Run(cfg, s0, begun) ==
        Some(State(map[0 := Reverting(1, Criteria([]), false), 1 := Starting], None, map[], Bare(map[[] := perms])))
    ensures var cfg, s0 := Twins(perms), Initial(Twins(perms), Bare(map[]));
      && Loose(cfg, s0, history) && Run(cfg, s0, history).Some?
      && var s := Run(cfg, s0, history).value;
        && s.phase == map[0 := Reverting(1, Criteria([]), false), 1 := Running]
        && s.host == Bare(map[[] := perms])
  {
    hide Next, EncodeHeader, Run, Loose, Orderly, LocalStep, Criteria, Assumed, Sighted;
    var cfg := Twins(perms);
    var s0 := Initial(cfg, Bare(map[]));
    var s := Run(cfg, s0, begun).value;
    CommitsOne(cfg, s0, begun, s, 1);
    history := begun + CommitSteps(1);
    s := Run(cfg, s0, history).value;
    assert s.phase == map[0 := Reverting(1, Criteria([]), false), 1 := Running];
    assert s.host.acl == map[[] := perms];
  }

  /** A cleanup that goes on without the segment lock may strip a user-scoped grant of an instance
      that commits after its scan, though nothing else goes wrong. */
  lemma UnlockedCleanupStripsPeer(perms: seq<Perm>) returns (history: seq<(Id, Action)>)
    requires perms != []
    ensures WellTyped(Twins(perms)) && WellScoped(Twins(perms)) && WellFormed(Bare(map[]))
    ensures var cfg, s0 := Twins(perms), Initial(Twins(perms), Bare(map[]));
      && Loose(cfg, s0, history) && Run(cfg, s0, history).Some?
      && var s := Run(cfg, s0, history).value;
        s.phase.Keys == cfg.Keys && s.phase[1] == Running && [] !in s.host.acl
  {
    TwinsAreProper(perms);
    BareHost();
    EmptyCriteria();
    hide Next, Run, Loose, Orderly, LocalStep, Assumed, Sighted, WellTyped, WellScoped, WellFormed, Criteria;
    var cfg := Twins(perms);
    var s0 := Initial(cfg, Bare(map[]));
    history := TwinScans(perms);
    history := TwinCommits(perms, history);
    var s := Run(cfg, s0, history).value;
    RevertNext(cfg, s, 0, 1, Criteria([]), false);
    s := Then(cfg, s0, history, s, 0, RevertOp(true));
    history := history + [(0, RevertOp(true))];
  }

  lemma EmptyCriteria()
    ensures Criteria([]) & USER != 0
  {
  }

  /** The history can be taken, without a fault, and leads to s. */
  ghost predicate Leads(cfg: Config, s0: State, history: seq<(Id, Action)>, s: State) {
    Orderly(cfg, s0, history) && AllFaultless(history) && Run(cfg, s0, history) == Some(s)
  }

  lemma Step(cfg: Config, s0: State, history: seq<(Id, Action)>, s: State, i: Id, a: Action, s': State)
    requires Leads(cfg, s0, history, s) && Next(cfg, s, i, a) == Some(s') && Assumed(s, a) && Faultless(a)
    ensures Leads(cfg, s0, history + [(i, a)], s')
  {
    hide Next, Assumed;
    Extend(cfg, s0, history, i, a);
    hide Orderly, Run;
  }

  function Alone(perms: seq<Perm>): Config {
    map[0 := Program(0, [], [AclUpdate(USER, [], perms)])]
  }

  lemma AloneIsProper(perms: seq<Perm>)
    requires perms != []
    ensures WellTyped(Alone(perms)) && WellScoped(Alone(perms)) && SameShared(Alone(perms))
  {
    var cfg := Alone(perms);
    assert cfg.Keys == {0};
    assert SameShared(cfg) by {
      hide SomeFrees;
    }
    hide SameShared;
  }

  /** The commit of the one operation. */
  lemma LifeBegins(perms: seq<Perm>) returns (history: seq<(Id, Action)>)
    requires perms != []
    ensures Leads(Alone(perms), Initial(Alone(perms), Bare(map[])), history,
                  State(map[0 := Running], None, map[0 := EncodeHeader(0)], Bare(map[[] := perms])))
  {
    hide Next, EncodeHeader, Run, Orderly, LocalStep;
    var cfg := Alone(perms);
    var s0 := Initial(cfg, Bare(map[]));
    EmptyOrderly(cfg, s0);
    AppliesFirst(cfg, s0, [], s0, 0);
    history := [] + [(0, LockCommit)] + [(0, Save(NoFault, true))] + [(0, ApplyOk)];
    var s := State(map[0 := Committing(1)], Some(0), map[0 := EncodeHeader(0)], Bare(map[[] := perms]));
    assert EncodeHeader(0) + [] == EncodeHeader(0);
    assert s.phase == s0.phase[0 := Committing(1)] && Apply(s0.host, cfg[0].ops[0]) == Some(s.host);
    assert Leads(cfg, s0, history, s);
    FailNext(cfg, s, 0, 1);
    var s' := State(map[0 := Running], None, s.files, s.host);
    assert s.phase[0 := Running] == s'.phase;
    hide Leads;
    Step(cfg, s0, history, s, 0, CommitDone, s');
    history := history + [(0, CommitDone)];
  }

  /** The lone instance in a phase of its cleanup, which holds the lock. */
  function Cleanup(ph: Phase, files: map<Id, seq<Byte>>, acl: map<Path, seq<Perm>>): State {
    State(map[0 := ph], Some(0), files, Bare(acl))
  }

  lemma AloneCleans(perms: seq<Perm>, files: map<Id, seq<Byte>>, host: World, acl: map<Path, seq<Perm>>)
    requires files.Keys == {0} && host == Bare(acl)
    ensures Next(Alone(perms), State(map[0 := Running], None, files, host), 0, LockClean) ==
      Some(Cleanup(Cleaning(true, true, true), files, acl))
    ensures Next(Alone(perms), Cleanup(Cleaning(true, true, true), files, acl), 0, Destroy(true)) ==
      Some(Cleanup(Destroyed(true, true), map[], acl))
  {
    hide Next;
    var s := State(map[0 := Running], None, files, host);
    CleanNext(Alone(perms), s, 0, true);
    assert s.phase[0 := Cleaning(true, true, true)] == map[0 := Cleaning(true, true, true)];
    var s1 := Cleanup(Cleaning(true, true, true), files, acl);
    CleanNext(Alone(perms), s1, 0, true);
    assert s1.phase[0 := Destroyed(true, true)] == map[0 := Destroyed(true, true)] && files - {0} == map[];
  }

  lemma AloneScans(perms: seq<Perm>, acl: map<Path, seq<Perm>>)
    ensures Next(Alone(perms), Cleanup(Destroyed(true, true), map[], acl), 0, Scan([], {}, [])) ==
      Some(Cleanup(Reverting(1, Criteria([]), true), map[], acl))
    ensures Assumed(Cleanup(Destroyed(true, true), map[], acl), Scan([], {}, []))
  {
    hide Next, Criteria;
    var s := Cleanup(Destroyed(true, true), map[], acl);
    EmptyScanNext(Alone(perms), s, 0, true);
    assert s.phase[0 := Reverting(1, Criteria([]), true)] == map[0 := Reverting(1, Criteria([]), true)];
  }

  lemma AloneReverts(perms: seq<Perm>)
    requires Criteria([]) & USER != 0
    ensures Next(Alone(perms), Cleanup(Reverting(1, Criteria([]), true), map[], map[[] := perms]), 0, RevertOp(true)) ==
      Some(Cleanup(Reverting(0, Criteria([]), true), map[], map[]))
    ensures Next(Alone(perms), Cleanup(Reverting(0, Criteria([]), true), map[], map[]), 0, RevertDone) ==
      Some(State(map[0 := Final], None, map[], Bare(map[])))
  {
    hide Next, Criteria;
    var s := Cleanup(Reverting(1, Criteria([]), true), map[], map[[] := perms]);
    var s1 := Cleanup(Reverting(0, Criteria([]), true), map[], map[]);
    assert s.host.acl - {[]} == s1.host.acl;
    RevertNext(Alone(perms), s, 0, 1, Criteria([]), true);
    assert s.phase[0 := s1.phase[0]] == s1.phase;
    DoneNext(Alone(perms), s1, 0, Criteria([]));
    assert s1.phase[0 := Final] == map[0 := Final];
  }

  /** The cleanup up to the criteria. */
  lemma LifeScans(perms: seq<Perm>, begun: seq<(Id, Action)>) returns (history: seq<(Id, Action)>)
    requires Leads(Alone(perms), Initial(Alone(perms), Bare(map[])), begun,
                   State(map[0 := Running], None, map[0 := EncodeHeader(0)], Bare(map[[] := perms])))
    ensures Leads(Alone(perms), Initial(Alone(perms), Bare(map[])), history,
                  Cleanup(Reverting(1, Criteria([]), true), map[], map[[] := perms]))
  {
    var acl, files := map[[] := perms], map[0 := EncodeHeader(0)];
    assert files.Keys == {0};
    AloneCleans(perms, files, Bare(acl), acl);
    AloneScans(perms, acl);
    hide *;
    var cfg, s0 := Alone(perms), Initial(Alone(perms), Bare(map[]));
    var s1, s2 := Cleanup(Cleaning(true, true, true), files, acl), Cleanup(Destroyed(true, true), map[], acl);
    CleanIsSafe(State(map[0 := Running], None, files, Bare(acl)), s1);
    Step(cfg, s0, begun, State(map[0 := Running], None, files, Bare(acl)), 0, LockClean, s1);
    Step(cfg, s0, begun + [(0, LockClean)], s1, 0, Destroy(true), s2);
    history := begun + [(0, LockClean)] + [(0, Destroy(true))];
    Step(cfg, s0, history, s2, 0, Scan([], {}, []), Cleanup(Reverting(1, Criteria([]), true), map[], acl));
    history := history + [(0, Scan([], {}, []))];
  }

  lemma CleanIsSafe(s: State, s': State)
    ensures Assumed(s, LockClean) && Assumed(s', Destroy(true)) && Assumed(s, RevertOp(true)) && Assumed(s', RevertDone)
    ensures Faultless(LockClean) && Faultless(Destroy(true)) && Faultless(Scan([], {}, []))
    ensures Faultless(RevertOp(true)) && Faultless(RevertDone)
  {
  }

  /** A life without faults: it takes a step that reverts in user scope, finishes, and gives the
      host back as it was. */
  lemma CompleteLife(perms: seq<Perm>) returns (before: seq<(Id, Action)>, history: seq<(Id, Action)>)
    requires perms != []
    ensures WellTyped(Alone(perms)) && WellScoped(Alone(perms)) && SameShared(Alone(perms)) && WellFormed(Bare(map[]))
    ensures AclUpdate(USER, [], perms).Reverts(Some(Criteria([])))
    ensures history == before + [(0, RevertOp(true))] + [(0, RevertDone)]
    ensures Leads(Alone(perms), Initial(Alone(perms), Bare(map[])), before,
                  Cleanup(Reverting(1, Criteria([]), true), map[], map[[] := perms]))
    ensures Leads(Alone(perms), Initial(Alone(perms), Bare(map[])), history,
                  State(map[0 := Final], None, map[], Bare(map[])))
  {
    AloneIsProper(perms);
    BareHost();
    EmptyCriteria();
    assert AclUpdate(USER, [], perms).Reverts(Some(Criteria([])));
    assert WellFormed(Bare(map[]));
    AloneReverts(perms);
    hide *;
    var cfg, s0 := Alone(perms), Initial(Alone(perms), Bare(map[]));
    var begun := LifeBegins(perms);
    before := LifeScans(perms, begun);
    var s := Cleanup(Reverting(1, Criteria([]), true), map[], map[[] := perms]);
    var s1 := Cleanup(Reverting(0, Criteria([]), true), map[], map[]);
    CleanIsSafe(s, s1);
    Step(cfg, s0, before, s, 0, RevertOp(true), s1);
    Step(cfg, s0, before + [(0, RevertOp(true))], s1, 0, RevertDone, State(map[0 := Final], None, map[], Bare(map[])));
    history := before + [(0, RevertOp(true))] + [(0, RevertDone)];
  }
}

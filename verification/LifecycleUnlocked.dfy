/** Cleanups that could not lock the segment: whom their reverts meet, and what they take. */
module LifecycleUnlocked {
  import opened Wrappers
  import opened Enablements
  import opened Store
  import opened SystemOps
  import opened Lifecycle
  import opened LifecycleInvariants
  import opened LifecycleSafety

  /** An instance whose entry other instances are to respect. */
  predicate Live(ph: Phase) {
    ph.Committing? || ph.Rolling? || Registered(ph)
  }

  /** A committed instance whose entry is in the segment. */
  predicate Registered(ph: Phase) {
    ph.Running? || (ph.Cleaning? && ph.committed)
  }

  /** What is taken for granted of a step when a cleanup may go on without the lock: a scan still
      lists every entry, and the entries of live instances can be read. */
  ghost predicate Sighted(s: State, a: Action) {
    && (a.LockCleanFail? || Assumed(s, a))
    && (a.Scan? ==> forall j :: j in a.unreadable && j in s.phase ==> !Live(s.phase[j]))
  }

  ghost predicate Loose(cfg: Config, s: State, history: seq<(Id, Action)>) {
    history != [] ==>
      var init := history[..|history| - 1];
      && Loose(cfg, s, init)
      && Run(cfg, s, init).Some?
      && Sighted(Run(cfg, s, init).value, history[|history| - 1].1)
  }

  /** What holds with and without the lock. */
  ghost predicate EntriesInv(cfg: Config, s: State) {
    && s.phase.Keys == cfg.Keys
    && FilesInv(cfg, s.files)
    && (forall i :: i in cfg ==> EntryInv(cfg, s, i))
    && (forall i :: i in cfg ==> Handled(s.phase[i]))
  }

  /** A committed instance knows its entry. */
  predicate Handled(ph: Phase) {
    ph.Cleaning? && ph.committed ==> ph.handle
  }

  predicate Leaves(a: Action) {
    a.Destroy? || a.Crash?
  }

  /** The phases before and after a step that matter to reverts. */
  lemma PhaseStep(prog: Program, ph: Phase, a: Action)
    requires LocalStep(prog, ph, a).Some?
    ensures var ph' := LocalStep(prog, ph, a).value;
      && Handled(ph')
      && (ph'.Reverting? ==> (ph.Reverting? && ph.ec == ph'.ec) || a.Scan? || ph'.ec == PROCESS)
      && (a.Scan? ==> ph'.Reverting? && ph'.ec == Criteria(a.headers))
      && (Live(ph') ==> Live(ph) || (a.Save? && a.ok))
      && (Handled(ph) ==> (Registered(ph') <==> a == CommitDone || (Registered(ph) && !Leaves(a))))
  {
    hide Criteria;
  }

  lemma StepKeepsEntries(cfg: Config, s: State, i: Id, a: Action)
    requires EntriesInv(cfg, s) && Next(cfg, s, i, a).Some?
    ensures EntriesInv(cfg, Next(cfg, s, i, a).value)
  {
    NextParts(cfg, s, i, a);
    FilesStepKeeps(cfg, s.files, i, a);
    StepKeepsEntry(cfg, s, i, a);
    PhaseStep(cfg[i], s.phase[i], a);
    hide Next, LocalStep, FilesStep, HostStep, EntryInv, FilesInv, Handled;
    forall j | j in cfg && j != i ensures EntryInv(cfg, Next(cfg, s, i, a).value, j) {
      EntryOfOther(cfg, s, i, a, j);
    }
  }

  lemma {:induction false} RunKeepsEntries(cfg: Config, host: World, history: seq<(Id, Action)>)
    requires Run(cfg, Initial(cfg, host), history).Some?
    ensures EntriesInv(cfg, Run(cfg, Initial(cfg, host), history).value)
  {
    if history != [] {
      var init, last := history[..|history| - 1], history[|history| - 1];
      RunKeepsEntries(cfg, host, init);
      StepKeepsEntries(cfg, Run(cfg, Initial(cfg, host), init).value, last.0, last.1);
      hide EntriesInv, Next;
    }
  }

  /** An instance with this program may rely on grants in the scope t. */
  predicate Names(prog: Program, t: Bits) {
    t == USER || (IsService(t) && prog.header & t != 0)
  }

  /** A scan that clears operations in a scope has met no entry of a live instance that names it. */
  lemma ScanMeetsNobody(cfg: Config, s: State, i: Id, a: Action, j: Id, t: Bits)
    requires WellTyped(cfg) && EntriesInv(cfg, s) && Sighted(s, a) && a.Scan? && Next(cfg, s, i, a).Some?
    requires Criteria(a.headers) & t != 0 && j in cfg && Names(cfg[j], t)
    ensures !Live(s.phase[j])
  {
    NextParts(cfg, s, i, a);
    hide Next, LocalStep, HostStep;
    NoStrayUser(cfg, s.files, a);
    CriteriaMeans(a.headers);
    hide Criteria;
    assert HasType(Some(Criteria(a.headers)), t);
    if Live(s.phase[j]) {
      LiveIsLoaded(cfg, s, i, a, j, t);
    }
  }

  /** A live instance has an entry that the scan loads. */
  lemma LiveIsLoaded(cfg: Config, s: State, i: Id, a: Action, j: Id, t: Bits)
    requires EntriesInv(cfg, s) && Sighted(s, a) && a.Scan?
    requires i in cfg && j in cfg && FilesStep(cfg[i], s.files, i, a).Some? && Live(s.phase[j])
    ensures SomeLoaded(a.headers) && (cfg[j].header & t != 0 ==> SomeHolds(a.headers, t))
  {
    assert EntryInv(cfg, s, j);
    var k :| 0 <= k < |a.order| && a.order[k] == j;
    assert a.headers[k] == Some(cfg[j].header);
    assert cfg[j].header & t != 0 ==> Holds(a.headers[k], t);
  }

  ghost predicate ScannedAt(history: seq<(Id, Action)>, i: Id, n: nat) {
    n < |history| && history[n].0 == i && history[n].1.Scan?
  }

  ghost predicate SavedAt(history: seq<(Id, Action)>, j: Id, m: nat) {
    m < |history| && history[m].0 == j && history[m].1.Save? && history[m].1.ok
  }

  /** j saved its entry after the scan of i. */
  ghost predicate SavedSinceScan(history: seq<(Id, Action)>, i: Id, j: Id) {
    exists n, m :: n < m && ScannedAt(history, i, n) && SavedAt(history, j, m)
  }

  /** i is reverting, operations in the scope t too. */
  predicate RevertsScope(s: State, i: Id, t: Bits) {
    i in s.phase && s.phase[i].Reverting? && s.phase[i].ec & t != 0
  }

  /** An instance begins to revert in the scope t with a scan. */
  lemma ScopeStep(cfg: Config, s: State, x: Id, a: Action, i: Id, t: Bits)
    requires Next(cfg, s, x, a).Some? && (t == USER || IsService(t))
    ensures RevertsScope(Next(cfg, s, x, a).value, i, t) ==>
      RevertsScope(s, i, t) || (x == i && a.Scan? && Criteria(a.headers) & t != 0)
  {
    NextParts(cfg, s, x, a);
    PhaseStep(cfg[x], s.phase[x], a);
    ProcessOnly(t);
    hide Next, LocalStep, FilesStep, HostStep, Criteria, Live, Registered, Handled, Leaves;
  }

  /** An instance becomes live with its save. */
  lemma LiveStep(cfg: Config, s: State, x: Id, a: Action, j: Id)
    requires Next(cfg, s, x, a).Some? && j in s.phase
    ensures var s' := Next(cfg, s, x, a).value;
      && s'.phase.Keys == s.phase.Keys
      && (x != j ==> s'.phase[j] == s.phase[j])
      && (Live(s'.phase[j]) ==> Live(s.phase[j]) || (x == j && a.Save? && a.ok))
  {
    NextParts(cfg, s, x, a);
    PhaseStep(cfg[x], s.phase[x], a);
    hide Next, LocalStep, FilesStep, HostStep, Criteria, Live, Registered, Handled, Leaves;
  }

  /** What a step of x does to the claim that i reverts in the scope t while j is live. */
  lemma RevertStep(cfg: Config, s: State, x: Id, a: Action, i: Id, j: Id, t: Bits)
    requires WellTyped(cfg) && EntriesInv(cfg, s) && Sighted(s, a) && Next(cfg, s, x, a).Some?
    requires i in cfg && j in cfg && i != j && Names(cfg[j], t)
    ensures var s' := Next(cfg, s, x, a).value;
      && s'.phase.Keys == cfg.Keys
      && (RevertsScope(s', i, t) ==> if RevertsScope(s, i, t) then true else x == i && a.Scan?)
      && (RevertsScope(s', i, t) && x == i && a.Scan? ==> !Live(s'.phase[j]))
      && (Live(s'.phase[j]) ==> Live(s.phase[j]) || (x == j && a.Save? && a.ok))
  {
    assert s.phase.Keys == cfg.Keys && (t == USER || IsService(t));
    if a.Scan? && x == i {
      ScanSets(cfg, s, x, a, i, t);
    }
    hide *;
    ScopeStep(cfg, s, x, a, i, t);
    LiveStep(cfg, s, x, a, j);
    if a.Scan? && x == i && Criteria(a.headers) & t != 0 {
      ScanMeetsNobody(cfg, s, x, a, j, t);
    }
  }

  lemma ScanSets(cfg: Config, s: State, x: Id, a: Action, i: Id, t: Bits)
    requires Next(cfg, s, x, a).Some? && a.Scan? && x == i
    ensures RevertsScope(Next(cfg, s, x, a).value, i, t) ==> Criteria(a.headers) & t != 0
  {
    NextParts(cfg, s, x, a);
    hide Next, FilesStep, HostStep, Criteria;
  }

  ghost predicate Scanned(history: seq<(Id, Action)>, i: Id) {
    exists n :: ScannedAt(history, i, n)
  }

  /** What one more step adds to the scans and saves of a history. */
  lemma SavedStep(history: seq<(Id, Action)>, i: Id, j: Id)
    requires history != []
    ensures var init, last := history[..|history| - 1], history[|history| - 1];
      && (Scanned(init, i) || (last.0 == i && last.1.Scan?) ==> Scanned(history, i))
      && (SavedSinceScan(init, i, j) ==> SavedSinceScan(history, i, j))
      && (Scanned(init, i) && last.0 == j && last.1.Save? && last.1.ok ==> SavedSinceScan(history, i, j))
  {
    var init, end := history[..|history| - 1], |history| - 1;
    if history[end].0 == i && history[end].1.Scan? {
      assert ScannedAt(history, i, end);
    }
    if n: nat :| ScannedAt(init, i, n) {
      assert ScannedAt(history, i, n);
      if history[end].0 == j && history[end].1.Save? && history[end].1.ok {
        assert SavedAt(history, j, end);
      }
    }
    if n: nat, m: nat :| n < m && ScannedAt(init, i, n) && SavedAt(init, j, m) {
      assert ScannedAt(history, i, n) && SavedAt(history, j, m);
    }
  }

  /** While i reverts in a scope, whoever is live and names it has saved its entry since the scan of i. */
  lemma {:induction false} LiveSavedSince(cfg: Config, host: World, history: seq<(Id, Action)>, i: Id, j: Id, t: Bits)
    requires WellTyped(cfg) && i in cfg && j in cfg && i != j && Names(cfg[j], t)
    requires var s := Initial(cfg, host); Loose(cfg, s, history) && Run(cfg, s, history).Some?
    ensures var s := Run(cfg, Initial(cfg, host), history).value;
      && s.phase.Keys == cfg.Keys
      && (RevertsScope(s, i, t) ==> Scanned(history, i))
      && (RevertsScope(s, i, t) && Live(s.phase[j]) ==> SavedSinceScan(history, i, j))
  {
    if history != [] {
      hide Next, WellTyped, EntriesInv, Sighted, Live, Initial, RevertsScope, Scanned, SavedSinceScan, Names;
      var init, last := history[..|history| - 1], history[|history| - 1];
      LiveSavedSince(cfg, host, init, i, j, t);
      RunKeepsEntries(cfg, host, init);
      RevertStep(cfg, Run(cfg, Initial(cfg, host), init).value, last.0, last.1, i, j, t);
      SavedStep(history, i, j);
    }
  }

  /** j has committed, and has neither destroyed its entry nor crashed since. */
  ghost predicate InService(history: seq<(Id, Action)>, j: Id) {
    exists m :: ServesFrom(history, j, m)
  }

  ghost predicate ServesFrom(history: seq<(Id, Action)>, j: Id, m: nat) {
    && m < |history| && history[m] == (j, CommitDone)
    && forall k :: m < k < |history| && history[k].0 == j ==> !Leaves(history[k].1)
  }

  lemma ServesStep(history: seq<(Id, Action)>, j: Id)
    requires history != []
    ensures var init, last := history[..|history| - 1], history[|history| - 1];
      InService(history, j) <==>
        if last.0 != j then InService(init, j)
        else last.1 == CommitDone || (InService(init, j) && !Leaves(last.1))
  {
    var init, last := history[..|history| - 1], history[|history| - 1];
    if m: nat :| ServesFrom(init, j, m) && (last.0 == j ==> !Leaves(last.1)) {
      assert ServesFrom(history, j, m);
    }
    if last == (j, CommitDone) {
      assert ServesFrom(history, j, |init|);
    }
    if m: nat :| ServesFrom(history, j, m) {
      assert m < |init| ==> ServesFrom(init, j, m) && history[|init|] == last;
    }
  }

  lemma {:induction false} RegisteredIff(cfg: Config, host: World, history: seq<(Id, Action)>, j: Id)
    requires j in cfg && Run(cfg, Initial(cfg, host), history).Some?
    ensures var s := Run(cfg, Initial(cfg, host), history).value;
      j in s.phase && (Registered(s.phase[j]) <==> InService(history, j))
  {
    if history != [] {
      var init, last := history[..|history| - 1], history[|history| - 1];
      var mid := Run(cfg, Initial(cfg, host), init).value;
      RegisteredIff(cfg, host, init, j);
      RunKeepsEntries(cfg, host, init);
      NextParts(cfg, mid, last.0, last.1);
      PhaseStep(cfg[last.0], mid.phase[last.0], last.1);
      hide Next, LocalStep, FilesStep, HostStep, EntryInv, FilesInv, Initial, Criteria;
      ServesStep(history, j);
    }
  }

  /** Whether or not cleanups got the lock: a revert in a scope meets exactly those registered peers that
      name it which are in service and saved their entries after the scan of i; every other live peer that
      names it saved after that scan too. */
  lemma RevertMeetsIff(cfg: Config, host: World, history: seq<(Id, Action)>, i: Id, a: Action, j: Id)
    requires WellTyped(cfg) && j in cfg && j != i
    requires var s := Initial(cfg, host); Loose(cfg, s, history) && Run(cfg, s, history).Some?
    requires var s := Run(cfg, Initial(cfg, host), history).value;
      && Next(cfg, s, i, a).Some? && a.RevertOp?
      && var ph := s.phase[i];
        ph.remaining <= |cfg[i].ops| && cfg[i].ops[ph.remaining - 1].Reverts(Some(ph.ec))
        && Names(cfg[j], cfg[i].ops[ph.remaining - 1].Type())
    ensures var s := Run(cfg, Initial(cfg, host), history).value;
      && j in s.phase
      && (Registered(s.phase[j]) <==> InService(history, j) && SavedSinceScan(history, i, j))
      && (Live(s.phase[j]) ==> SavedSinceScan(history, i, j))
  {
    var s := Run(cfg, Initial(cfg, host), history).value;
    NextParts(cfg, s, i, a);
    ScopedRevert(cfg[i], s.phase[i], a);
    var t := cfg[i].ops[s.phase[i].remaining - 1].Type();
    assert HasType(Some(s.phase[i].ec), t);
    hide *;
    LiveSavedSince(cfg, host, history, i, j, t);
    RegisteredIff(cfg, host, history, j);
    LiveIfRegistered(s.phase[j]);
    RevertsScopeIf(s, i, t);
  }

  lemma ScopedRevert(prog: Program, ph: Phase, a: Action)
    requires LocalStep(prog, ph, a).Some? && a.RevertOp?
    ensures ph.Reverting? && ph.remaining > 0
  {
  }

  lemma LiveIfRegistered(ph: Phase)
    ensures Registered(ph) ==> Live(ph)
  {
  }

  lemma RevertsScopeIf(s: State, i: Id, t: Bits)
    requires i in s.phase && s.phase[i].Reverting? && HasType(Some(s.phase[i].ec), t)
    ensures RevertsScope(s, i, t)
  {
  }

  lemma {:induction false} RunKeepsShape(cfg: Config, host: World, history: seq<(Id, Action)>)
    requires WellFormed(host) && Run(cfg, Initial(cfg, host), history).Some?
    ensures WellFormed(Run(cfg, Initial(cfg, host), history).value.host)
  {
    hide WellFormed;
    if history != [] {
      var init, last := history[..|history| - 1], history[|history| - 1];
      var mid := Run(cfg, Initial(cfg, host), init).value;
      RunKeepsShape(cfg, host, init);
      NextParts(cfg, mid, last.0, last.1);
      hide Next, HostStep;
      HostStepKeepsShape(cfg[last.0], mid.host, mid.phase[last.0], last.1);
    }
  }

  /** i strips a grant from a peer that saved its entry after the scan of i, or that has destroyed it and
      not scanned yet. */
  ghost predicate LateRevert(cfg: Config, s: State, history: seq<(Id, Action)>, i: Id, a: Action) {
    && i in s.phase && s.phase[i].Reverting?
    && exists j, k :: TakesFrom(cfg, s, i, a, j, k) && (SavedSinceScan(history, i, j) || s.phase[j].Destroyed?)
  }

  /** What is relied on is of a scope its instance names, and the instance is live or about to scan. */
  lemma ReliedIsNamed(cfg: Config, s: State, i: Id, a: Action, j: Id, k: nat)
    requires WellTyped(cfg) && TakesFrom(cfg, s, i, a, j, k)
    ensures k < |cfg[j].ops| && Names(cfg[j], cfg[j].ops[k].Type())
    ensures Live(s.phase[j]) || s.phase[j].Destroyed?
  {
    assert cfg[j].ops[k] in cfg[j].ops;
    hide Takes;
  }

  /** With or without the lock, a revert takes nothing but from a peer that relies on it in another scope,
      saved its entry after the scan, or is about to scan itself. */
  lemma RevertTakes(cfg: Config, host: World, history: seq<(Id, Action)>, i: Id, a: Action, j: Id, k: nat)
    requires WellTyped(cfg)
    requires var s := Initial(cfg, host); Loose(cfg, s, history) && Run(cfg, s, history).Some?
    requires var s := Run(cfg, Initial(cfg, host), history).value;
      TakesFrom(cfg, s, i, a, j, k) && s.phase[i].Reverting?
    ensures var s := Run(cfg, Initial(cfg, host), history).value;
      OtherScope(cfg, s, i, j, k) || SavedSinceScan(history, i, j) || s.phase[j].Destroyed?
  {
    var s := Run(cfg, Initial(cfg, host), history).value;
    TakingPhase(cfg, s, i, a, j, k);
    ReliedIsNamed(cfg, s, i, a, j, k);
    assert i in cfg && j in cfg && i != j;
    hide Run, Initial, TakesFrom, WellTyped, Loose, Names, Live, InForce, SavedSinceScan;
    if !OtherScope(cfg, s, i, j, k) {
      LiveSavedSince(cfg, host, history, i, j, cfg[j].ops[k].Type());
    }
  }

  /** No step of the history is harmful, and none is a late revert. */
  ghost predicate Tame(cfg: Config, s: State, history: seq<(Id, Action)>) {
    history != [] ==>
      var init, last := history[..|history| - 1], history[|history| - 1];
      && Tame(cfg, s, init)
      && (Run(cfg, s, init).Some? ==>
            var mid := Run(cfg, s, init).value;
            !Harmful(cfg, mid, last.0, last.1) && !LateRevert(cfg, mid, init, last.0, last.1))
  }

  lemma TakingIsUntamed(cfg: Config, host: World, history: seq<(Id, Action)>, i: Id, a: Action, j: Id, k: nat)
    requires WellTyped(cfg)
    requires var s := Initial(cfg, host); Loose(cfg, s, history) && Run(cfg, s, history).Some?
    requires TakesFrom(cfg, Run(cfg, Initial(cfg, host), history).value, i, a, j, k)
    ensures var s := Run(cfg, Initial(cfg, host), history).value;
      Harmful(cfg, s, i, a) || LateRevert(cfg, s, history, i, a)
  {
    var s := Run(cfg, Initial(cfg, host), history).value;
    assert TakesSome(cfg, s, i, a) && i in s.phase;
    TakingPhase(cfg, s, i, a, j, k);
    hide Run, Initial, Loose, WellTyped, SavedSinceScan, OtherScope, TakesFrom, TakesSome;
    if s.phase[i].Reverting? {
      RevertTakes(cfg, host, history, i, a, j, k);
    }
  }

  lemma TakesIffUntamed(cfg: Config, host: World, history: seq<(Id, Action)>, i: Id, a: Action)
    requires WellTyped(cfg)
    requires var s := Initial(cfg, host); Loose(cfg, s, history) && Run(cfg, s, history).Some?
    ensures var s := Run(cfg, Initial(cfg, host), history).value;
      TakesSome(cfg, s, i, a) <==> Harmful(cfg, s, i, a) || LateRevert(cfg, s, history, i, a)
  {
    hide Run, Initial, Loose, WellTyped, SavedSinceScan, Harmful, TakesFrom;
    var s := Run(cfg, Initial(cfg, host), history).value;
    if j, k: nat :| TakesFrom(cfg, s, i, a, j, k) {
      TakingIsUntamed(cfg, host, history, i, a, j, k);
    }
    if Harmful(cfg, s, i, a) {
      HarmfulTakes(cfg, s, i, a);
    }
  }

  /** Whether or not cleanups got the lock, a history keeps shared grants in place throughout exactly if
      none of its steps is harmful or a late revert. */
  lemma {:induction false} LooseRetainedIff(cfg: Config, host: World, history: seq<(Id, Action)>)
    requires WellTyped(cfg) && WellFormed(host)
    requires var s := Initial(cfg, host); Loose(cfg, s, history) && Run(cfg, s, history).Some?
    ensures RetainedThroughout(cfg, Initial(cfg, host), history) <==> Tame(cfg, Initial(cfg, host), history)
  {
    hide Next, WellTyped, WellFormed, Sighted, Harmful, LateRevert, TakesSome, Retained, Initial;
    if history == [] {
      RetainedAtFirst(cfg, host);
    } else {
      var init, last := history[..|history| - 1], history[|history| - 1];
      var mid := Run(cfg, Initial(cfg, host), init).value;
      LooseRetainedIff(cfg, host, init);
      RunKeepsShape(cfg, host, init);
      TakesIffUntamed(cfg, host, init, last.0, last.1);
      hide Loose;
      if RetainedThroughout(cfg, Initial(cfg, host), init) {
        RetainedAtLast(cfg, Initial(cfg, host), init);
        StepRetainsByTaking(cfg, mid, last.0, last.1);
      }
    }
  }
}

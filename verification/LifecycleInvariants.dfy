/** What every orderly history of the lifecycle keeps. */
module LifecycleInvariants {
  import opened Wrappers
  import opened Enablements
  import opened Store
  import opened SystemOps
  import opened Transactions
  import opened Lifecycle

  lemma HostStepKeepsShape(prog: Program, w: World, ph: Phase, a: Action)
    requires WellFormed(w) && HostStep(prog, w, ph, a).Some?
    ensures WellFormed(HostStep(prog, w, ph, a).value)
  {
    match (ph, a)
    case (Committing(k), ApplyOk) => ApplyKeepsShape(w, prog.ops[k]);
    case (Rolling(k), RollBack(ok)) =>
      if ok && 0 < k <= |prog.ops| {
        RevertShape(w, prog.ops[k - 1], None);
      }
    case (Reverting(k, ec, _), RevertOp(ok)) =>
      if ok && 0 < k <= |prog.ops| {
        RevertShape(w, prog.ops[k - 1], Some(ec));
      }
    case (_, _) =>
  }

  lemma SaveKeepsFiles(cfg: Config, files: map<Id, seq<Byte>>, i: Id, fault: SaveFault)
    requires i in cfg && FilesInv(cfg, files)
    ensures FilesInv(cfg, SavedFiles(files, i, cfg[i].header, cfg[i].body, fault))
    ensures SaveSucceeds(files, i, fault) ==>
      HeaderOf(SavedFiles(files, i, cfg[i].header, cfg[i].body, fault)[i]) == Some(cfg[i].header)
  {
    var p := cfg[i];
    var file := EncodeHeader(p.header) + p.body;
    assert file[..|file|] == file;
    TornWrite(p.header, p.body, |file|);
    if fault.Torn? && fault.written <= |file| {
      TornWrite(p.header, p.body, fault.written);
    }
  }

  lemma FilesStepKeeps(cfg: Config, files: map<Id, seq<Byte>>, i: Id, a: Action)
    requires i in cfg && FilesInv(cfg, files) && FilesStep(cfg[i], files, i, a).Some?
    ensures var files' := FilesStep(cfg[i], files, i, a).value;
      && FilesInv(cfg, files')
      && (forall j :: j != i ==> (j in files' <==> j in files) && (j in files ==> files'[j] == files[j]))
      && (a.Save? && a.ok ==> i in files' && HeaderOf(files'[i]) == Some(cfg[i].header))
      && (!a.Save? && !a.Destroy? ==> files' == files)
  {
    if a.Save? {
      SaveKeepsFiles(cfg, files, i, a.fault);
    }
  }

  lemma NextParts(cfg: Config, s: State, i: Id, a: Action)
    requires Next(cfg, s, i, a).Some?
    ensures i in cfg && i in s.phase && LocalStep(cfg[i], s.phase[i], a).Some?
    ensures FilesStep(cfg[i], s.files, i, a).Some? && HostStep(cfg[i], s.host, s.phase[i], a).Some?
    ensures var s', ph' := Next(cfg, s, i, a).value, LocalStep(cfg[i], s.phase[i], a).value;
      && s'.phase == s.phase[i := ph']
      && s'.files == FilesStep(cfg[i], s.files, i, a).value
      && s'.host == HostStep(cfg[i], s.host, s.phase[i], a).value
      && s'.lock == (if HoldsLock(ph') then Some(i) else if HoldsLock(s.phase[i]) then None else s.lock)
      && (!HoldsLock(s.phase[i]) && HoldsLock(ph') ==> s.lock.None?)
  {
  }

  /** While i holds the lock past its own entry, a committed peer has an entry that loads. */
  lemma PeerEntry(cfg: Config, s: State, i: Id, j: Id)
    requires Inv(cfg, s) && i in cfg && j in cfg && j != i
    requires s.phase[i].Destroyed? && Committed(s.phase[j])
    ensures HasEntry(cfg, s, j)
  {
    assert InstanceInv(cfg, s, i);
    assert InstanceInv(cfg, s, j);
  }

  /** An instance whose entry the scan loads is spared by the criteria. */
  lemma ScanSparesPeer(cfg: Config, s: State, i: Id, a: Action, j: Id)
    requires WellTyped(cfg) && Inv(cfg, s) && Assumed(s, a) && Next(cfg, s, i, a).Some?
    requires s.phase[i].Destroyed? && a.Scan? && j in cfg && j != i && Committed(s.phase[j])
    ensures Criteria(a.headers) & USER == 0
    ensures forall b | IsService(b) :: cfg[j].header & b != 0 ==> Criteria(a.headers) & b == 0
  {
    NextParts(cfg, s, i, a);
    hide Next, LocalStep, HostStep;
    NoStrayUser(cfg, s.files, a);
    hide Criteria;
    PeerEntry(cfg, s, i, j);
    var k :| 0 <= k < |a.order| && a.order[k] == j;
    CriteriaSpares(a.headers, k);
  }

  /** A scan under the lock yields a criteria that spares every committed instance. */
  lemma ScanSpares(cfg: Config, s: State, i: Id, a: Action)
    requires WellTyped(cfg) && Inv(cfg, s) && Assumed(s, a) && Next(cfg, s, i, a).Some?
    requires s.phase[i].Destroyed? && a.Scan?
    ensures Spares(cfg, Next(cfg, s, i, a).value, Criteria(a.headers))
  {
    NextParts(cfg, s, i, a);
    assert !Committed(Next(cfg, s, i, a).value.phase[i]);
    hide Next, LocalStep, HostStep, FilesStep, Criteria, Inv, WellTyped, Assumed, Headers;
    forall j | j in cfg && j != i && Committed(s.phase[j])
      ensures Criteria(a.headers) & USER == 0
      ensures forall b | IsService(b) :: cfg[j].header & b != 0 ==> Criteria(a.headers) & b == 0
    {
      ScanSparesPeer(cfg, s, i, a, j);
    }
  }

  lemma NoStrayUser(cfg: Config, files: map<Id, seq<Byte>>, a: Action)
    requires WellTyped(cfg) && FilesInv(cfg, files) && a.Scan?
    requires (forall j :: j in a.order ==> j in files) && a.headers == Headers(files, a.order, a.unreadable)
    ensures !SomeHolds(a.headers, USER)
  {
    forall k | 0 <= k < |a.headers| ensures !Holds(a.headers[k], USER) {
      if a.headers[k].Some? {
        assert a.order[k] in files;
        MaskExcludesUser(cfg[a.order[k]].header);
      }
    }
  }

  lemma MaskExcludesUser(h: Bits)
    requires h & !MASK == 0
    ensures h & USER == 0
  {
  }

  lemma ProcessOnly(b: Bits)
    requires IsService(b) || b == USER
    ensures PROCESS & b == 0
  {
  }

  /** Another instance holds the lock after a step exactly if its phase does. */
  lemma LockOfOther(cfg: Config, s: State, i: Id, a: Action, j: Id)
    requires Next(cfg, s, i, a).Some? && j in cfg && j != i && j in s.phase
    requires LockInv(cfg, s, i) && LockInv(cfg, s, j)
    ensures LockInv(cfg, Next(cfg, s, i, a).value, j)
  {
    NextParts(cfg, s, i, a);
    hide Next, LocalStep, HostStep, FilesStep;
  }

  lemma EntryOfOther(cfg: Config, s: State, i: Id, a: Action, j: Id)
    requires FilesInv(cfg, s.files) && Next(cfg, s, i, a).Some? && j in cfg && j != i && j in s.phase
    requires EntryInv(cfg, s, j)
    ensures var s' := Next(cfg, s, i, a).value;
      j in s'.phase && s'.phase[j] == s.phase[j] && EntryInv(cfg, s', j)
  {
    NextParts(cfg, s, i, a);
    FilesStepKeeps(cfg, s.files, i, a);
    hide Next, FilesStep, HostStep, LocalStep;
  }

  /** While another instance holds the lock, a step of i does not commit. */
  lemma SparesOfOther(cfg: Config, s: State, i: Id, a: Action, j: Id)
    requires Next(cfg, s, i, a).Some? && j in cfg && j != i && j in s.phase
    requires LockInv(cfg, s, i) && LockInv(cfg, s, j) && s.phase[j].Reverting? && Spares(cfg, s, s.phase[j].ec)
    ensures Spares(cfg, Next(cfg, s, i, a).value, s.phase[j].ec)
  {
    NextParts(cfg, s, i, a);
    assert Committed(LocalStep(cfg[i], s.phase[i], a).value) ==> Committed(s.phase[i]);
    hide Next, LocalStep, HostStep, FilesStep, LockInv;
  }

  /** The other instances are not disturbed by a step of i. */
  lemma OthersKeep(cfg: Config, s: State, i: Id, a: Action, j: Id)
    requires Inv(cfg, s) && Next(cfg, s, i, a).Some? && j in cfg && j != i
    ensures j in Next(cfg, s, i, a).value.phase && InstanceInv(cfg, Next(cfg, s, i, a).value, j)
  {
    NextParts(cfg, s, i, a);
    assert InstanceInv(cfg, s, i) && InstanceInv(cfg, s, j) && s.phase.Keys == cfg.Keys && FilesInv(cfg, s.files);
    hide Next, LocalStep, FilesStep, HostStep, Inv, LockInv, EntryInv, FilesInv, Spares;
    LockOfOther(cfg, s, i, a, j);
    EntryOfOther(cfg, s, i, a, j);
    if s.phase[j].Reverting? {
      SparesOfOther(cfg, s, i, a, j);
    }
  }

  lemma StepKeepsLock(cfg: Config, s: State, i: Id, a: Action)
    requires i in cfg && i in s.phase && LockInv(cfg, s, i)
    requires !a.LockCleanFail? && Next(cfg, s, i, a).Some?
    ensures LockInv(cfg, Next(cfg, s, i, a).value, i)
  {
    NextParts(cfg, s, i, a);
    hide Next;
    hide HostStep;
    hide FilesStep;
    hide Criteria;
  }

  lemma EntryStep(cfg: Config, s: State, i: Id, a: Action)
    requires FilesInv(cfg, s.files) && Next(cfg, s, i, a).Some?
    ensures var s' := Next(cfg, s, i, a).value;
      && (!a.Save? ==> i !in s.files ==> i !in s'.files)
      && (a.Save? && a.ok ==> HasEntry(cfg, s', i))
      && (!a.Save? && !a.Destroy? ==> HasEntry(cfg, s, i) ==> HasEntry(cfg, s', i))
  {
    NextParts(cfg, s, i, a);
    FilesStepKeeps(cfg, s.files, i, a);
  }

  lemma StepKeepsEntry(cfg: Config, s: State, i: Id, a: Action)
    requires i in cfg && i in s.phase && EntryInv(cfg, s, i) && FilesInv(cfg, s.files)
    requires Next(cfg, s, i, a).Some?
    ensures EntryInv(cfg, Next(cfg, s, i, a).value, i)
  {
    NextParts(cfg, s, i, a);
    EntryStep(cfg, s, i, a);
    hide Next;
    hide HostStep;
    hide FilesStep;
    hide FilesInv;
    hide HasEntry;
    hide HoldsLock;
    hide Criteria;
  }

  lemma StepKeepsSparing(cfg: Config, s: State, i: Id, a: Action)
    requires WellTyped(cfg) && Inv(cfg, s) && Assumed(s, a) && Next(cfg, s, i, a).Some?
    ensures var s' := Next(cfg, s, i, a).value;
      s'.phase[i].Reverting? ==> Spares(cfg, s', s'.phase[i].ec)
  {
    NextParts(cfg, s, i, a);
    if s.phase[i].Destroyed? && a.Scan? {
      ScanSpares(cfg, s, i, a);
    } else {
      assert InstanceInv(cfg, s, i);
      OtherwiseSpares(cfg, s, i, a);
    }
  }

  /** Where a criteria comes from. */
  lemma CriteriaOrigin(prog: Program, ph: Phase, a: Action)
    requires LocalStep(prog, ph, a).Some? && LocalStep(prog, ph, a).value.Reverting?
    ensures var ec := LocalStep(prog, ph, a).value.ec;
      || (ph.Destroyed? && a.Scan? && ec == Criteria(a.headers))
      || (ph.Destroyed? && a.ScanFail? && ec == PROCESS)
      || (ph.Reverting? && ph.ec == ec)
    ensures !Committed(LocalStep(prog, ph, a).value)
  {
  }

  lemma OtherwiseSpares(cfg: Config, s: State, i: Id, a: Action)
    requires Next(cfg, s, i, a).Some? && InstanceInv(cfg, s, i)
    requires !(s.phase[i].Destroyed? && a.Scan?)
    ensures var s' := Next(cfg, s, i, a).value;
      s'.phase[i].Reverting? ==> Spares(cfg, s', s'.phase[i].ec)
  {
    NextParts(cfg, s, i, a);
    var s', ph := Next(cfg, s, i, a).value, s.phase[i];
    if s'.phase[i].Reverting? {
      CriteriaOrigin(cfg[i], ph, a);
      hide Next;
      hide LocalStep;
      if ph.Destroyed? {
        ProcessSpares(cfg, s');
      } else {
        SparesLess(cfg, s, s', ph.ec);
      }
    }
  }

  lemma ProcessSpares(cfg: Config, s: State)
    ensures Spares(cfg, s, PROCESS)
  {
    forall b | IsService(b) || b == USER ensures PROCESS & b == 0 {
      ProcessOnly(b);
    }
  }

  lemma SparesLess(cfg: Config, s: State, s': State, ec: Bits)
    requires Spares(cfg, s, ec)
    requires forall j :: j in s'.phase && Committed(s'.phase[j]) ==> j in s.phase && Committed(s.phase[j])
    ensures Spares(cfg, s', ec)
  {
  }

  lemma StepKeepsInv(cfg: Config, s: State, i: Id, a: Action)
    requires WellTyped(cfg) && Inv(cfg, s) && Assumed(s, a) && Next(cfg, s, i, a).Some?
    ensures Inv(cfg, Next(cfg, s, i, a).value)
  {
    var s' := Next(cfg, s, i, a).value;
    HostStepKeepsShape(cfg[i], s.host, s.phase[i], a);
    FilesStepKeeps(cfg, s.files, i, a);
    forall j | j in cfg ensures InstanceInv(cfg, s', j) {
      if j == i {
        StepKeepsLock(cfg, s, i, a);
        StepKeepsEntry(cfg, s, i, a);
        StepKeepsSparing(cfg, s, i, a);
      } else {
        OthersKeep(cfg, s, i, a, j);
      }
    }
  }

  lemma {:induction false} RunKeepsInv(cfg: Config, host: World, history: seq<(Id, Action)>)
    requires WellTyped(cfg) && WellFormed(host)
    requires var s := Initial(cfg, host); Orderly(cfg, s, history) && Run(cfg, s, history).Some?
    ensures Inv(cfg, Run(cfg, Initial(cfg, host), history).value)
  {
    if history != [] {
      var init, last := history[..|history| - 1], history[|history| - 1];
      RunKeepsInv(cfg, host, init);
      StepKeepsInv(cfg, Run(cfg, Initial(cfg, host), init).value, last.0, last.1);
    }
  }
}

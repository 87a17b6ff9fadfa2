/** Any number of instances of one identity sharing a store segment and a host: each runs the
    local program of one process, and their steps interleave. */
module Lifecycle {
  import opened Wrappers
  import opened Enablements
  import opened Store
  import opened SystemOps

  datatype Program = Program(header: Bits, body: seq<Byte>, ops: seq<Op>)

  datatype Phase =
    | Starting
    | Locked                                                // segment locked, entry not yet saved
    | Committing(applied: nat)                              // entry saved, operations being applied
    | Rolling(remaining: nat)                               // an operation failed, undoing the rest
    | Running                                               // committed, nothing reverted
    | Doomed(handle: bool)                                  // will not commit; handle: Save was called
    | Cleaning(committed: bool, handle: bool, locked: bool)
    | Destroyed(committed: bool, locked: bool)
    | Reverting(remaining: nat, ec: Bits, locked: bool)
    | Final
    | Crashed

  datatype Action =
    | StartFail
    | LockCommit
    | LockCommitFail
    | Save(fault: SaveFault, ok: bool)
    | IdentFail
    | ApplyOk
    | ApplyFail
    | CommitDone
    | RollBack(ok: bool)
    | RollDone
    | LockClean
    | LockCleanFail
    | Destroy(ok: bool)
    | NoEntry
    | SkipRevert
    | ScanFail
    | Scan(order: seq<Id>, unreadable: set<Id>, headers: seq<Option<Bits>>)
    | RevertOp(ok: bool)
    | RevertDone
    | Crash

  /** The program of one process: which action its phase allows and where it leads. */
  function LocalStep(prog: Program, ph: Phase, a: Action): Option<Phase> {
    if a.Crash? then
      if ph.Final? || ph.Crashed? then None else Some(Crashed)
    else match ph
      case Starting =>
        if a.StartFail? then Some(Final)
        else if a.LockCommit? then Some(Locked)
        else if a.LockCommitFail? then Some(Doomed(false))
        else None
      case Locked =>
        if a.Save? then Some(if a.ok then Committing(0) else Doomed(true)) else None
      case Committing(k) =>
        if a.IdentFail? && k == 0 then Some(Doomed(true))
        else if a.ApplyOk? && k < |prog.ops| then Some(Committing(k + 1))
        else if a.ApplyFail? && k < |prog.ops| then Some(Rolling(k))
        else if a.CommitDone? && k == |prog.ops| then Some(Running)
        else None
      case Rolling(k) =>
        if a.RollBack? && k > 0 then Some(Rolling(k - 1))
        else if a.RollDone? && k == 0 then Some(Doomed(true))
        else None
      case Running =>
        if a.LockClean? || a.LockCleanFail? then Some(Cleaning(true, true, a.LockClean?)) else None
      case Doomed(h) =>
        if a.LockClean? || a.LockCleanFail? then Some(Cleaning(false, h, a.LockClean?)) else None
      case Cleaning(c, h, l) =>
        if (if h then a.Destroy? else a.NoEntry?) then Some(Destroyed(c, l)) else None
      case Destroyed(c, l) =>
        if !c then if a.SkipRevert? then Some(Final) else None
        else if a.ScanFail? then Some(Reverting(|prog.ops|, PROCESS, l))
        else if a.Scan? then Some(Reverting(|prog.ops|, Criteria(a.headers), l))
        else None
      case Reverting(k, ec, l) =>
        if a.RevertOp? && k > 0 then Some(Reverting(k - 1, ec, l))
        else if a.RevertDone? && k == 0 then Some(Final)
        else None
      case Final => None
      case Crashed => None
  }

  predicate HoldsLock(ph: Phase) {
    match ph
    case Locked => true
    case Committing(_) => true
    case Rolling(_) => true
    case Cleaning(_, _, l) => l
    case Destroyed(_, l) => l
    case Reverting(_, _, l) => l
    case _ => false
  }

  type Config = map<Id, Program>

  datatype State = State(phase: map<Id, Phase>, lock: Option<Id>, files: map<Id, seq<Byte>>, host: World)

  /** The effect of an action on the directory of the segment, or None when it cannot happen. */
  function FilesStep(prog: Program, files: map<Id, seq<Byte>>, i: Id, a: Action): Option<map<Id, seq<Byte>>> {
    match a
    case Save(fault, ok) =>
      if ok == SaveSucceeds(files, i, fault) then Some(SavedFiles(files, i, prog.header, prog.body, fault)) else None
    case Destroy(ok) => if ok && !DestroySucceeds(files, i, false) then None else Some(DestroyedFiles(files, i, ok))
    case Scan(order, unreadable, hs) =>
      if (forall j :: j in order ==> j in files) && hs == Headers(files, order, unreadable) then Some(files) else None
    case _ => Some(files)
  }

  /** The effect of an action on the host, or None when it cannot happen. */
  function HostStep(prog: Program, w: World, ph: Phase, a: Action): Option<World> {
    match (ph, a)
    case (Committing(k), ApplyOk) => if k < |prog.ops| then Apply(w, prog.ops[k]) else None
    case (Rolling(k), RollBack(ok)) =>
      if ok && 0 < k <= |prog.ops| then Revert(w, prog.ops[k - 1], None) else Some(w)
    case (Reverting(k, ec, _), RevertOp(ok)) =>
      if ok && 0 < k <= |prog.ops| then Revert(w, prog.ops[k - 1], Some(ec)) else Some(w)
    case (_, _) => Some(w)
  }

  function Next(cfg: Config, s: State, i: Id, a: Action): Option<State> {
    if i !in cfg || i !in s.phase then None
    else
      var before := s.phase[i];
      match LocalStep(cfg[i], before, a)
      case None => None
      case Some(after) =>
        if !HoldsLock(before) && HoldsLock(after) && s.lock.Some? then None
        else
          var lock := if HoldsLock(after) then Some(i) else if HoldsLock(before) then None else s.lock;
          var files := FilesStep(cfg[i], s.files, i, a);
          var host := HostStep(cfg[i], s.host, before, a);
          if files.None? || host.None? then None
          else Some(State(s.phase[i := after], lock, files.value, host.value))
  }

  function Initial(cfg: Config, host: World): State {
    State(map i | i in cfg :: Starting, None, map[], host)
  }

  /** The state after a history, each element an instance and the action it took. */
  function Run(cfg: Config, s: State, history: seq<(Id, Action)>): Option<State> {
    if history == [] then Some(s)
    else
      match Run(cfg, s, history[..|history| - 1])
      case None => None
      case Some(mid) => Next(cfg, mid, history[|history| - 1].0, history[|history| - 1].1)
  }

  /** Committed, and not yet past the scan that decides what it reverts. */
  predicate Committed(ph: Phase) {
    ph.Running? || (ph.Cleaning? && ph.committed) || (ph.Destroyed? && ph.committed)
  }

  /** What is taken for granted of one step: a cleanup obtains the segment lock, a scan lists every
      entry, and the entries of committed instances can be read. */
  ghost predicate Assumed(s: State, a: Action) {
    && !a.LockCleanFail?
    && (a.Scan? ==>
      && IsListing(s.files, a.order)
      && forall j :: j in a.unreadable && j in s.phase ==> !Committed(s.phase[j]))
  }

  ghost predicate Orderly(cfg: Config, s: State, history: seq<(Id, Action)>) {
    history != [] ==>
      var init := history[..|history| - 1];
      && Orderly(cfg, s, init)
      && Run(cfg, s, init).Some?
      && Assumed(Run(cfg, s, init).value, history[|history| - 1].1)
  }

  /** Headers name only the four services, and operations carry one scope each. */
  ghost predicate WellTyped(cfg: Config) {
    forall i :: i in cfg ==>
      && cfg[i].header & !MASK == 0
      && forall op :: op in cfg[i].ops ==>
        && IsScope(op.Type())
        && (IsService(op.Type()) ==> cfg[i].header & op.Type() != 0)
  }

  ghost predicate HasEntry(cfg: Config, s: State, i: Id) {
    i in cfg && i in s.files && HeaderOf(s.files[i]) == Some(cfg[i].header)
  }

  /** A criteria computed under the lock spares what committed instances need. */
  ghost predicate Spares(cfg: Config, s: State, ec: Bits) {
    forall j :: j in cfg && j in s.phase && Committed(s.phase[j]) ==>
      ec & USER == 0 && forall b | IsService(b) :: cfg[j].header & b != 0 ==> ec & b == 0
  }

  ghost predicate LockInv(cfg: Config, s: State, i: Id)
    requires i in cfg && i in s.phase
  {
    var ph := s.phase[i];
    && (HoldsLock(ph) <==> s.lock == Some(i))
    && (ph.Cleaning? || ph.Destroyed? || ph.Reverting? ==> ph.locked)
    && (ph.Committing? ==> ph.applied <= |cfg[i].ops|)
    && (ph.Rolling? ==> ph.remaining <= |cfg[i].ops|)
    && (ph.Reverting? ==> ph.remaining <= |cfg[i].ops|)
  }

  ghost predicate EntryInv(cfg: Config, s: State, i: Id)
    requires i in cfg && i in s.phase
  {
    var ph := s.phase[i];
    && (ph.Starting? || ph.Locked? ==> i !in s.files)
    && (ph.Committing? || ph.Rolling? || ph.Running? || (ph.Cleaning? && ph.committed) ==> HasEntry(cfg, s, i))
  }

  ghost predicate InstanceInv(cfg: Config, s: State, i: Id)
    requires i in cfg && i in s.phase
  {
    LockInv(cfg, s, i) && EntryInv(cfg, s, i) && (s.phase[i].Reverting? ==> Spares(cfg, s, s.phase[i].ec))
  }

  /** A file of the segment belongs to an instance and loads, if at all, with its enablements. */
  ghost predicate FilesInv(cfg: Config, files: map<Id, seq<Byte>>) {
    forall i :: i in files ==> i in cfg && (HeaderOf(files[i]).Some? ==> HeaderOf(files[i]).value == cfg[i].header)
  }

  ghost predicate Inv(cfg: Config, s: State) {
    && s.phase.Keys == cfg.Keys
    && WellFormed(s.host)
    && FilesInv(cfg, s.files)
    && forall i :: i in cfg ==> InstanceInv(cfg, s, i)
  }
}

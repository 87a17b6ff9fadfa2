/** The process of one instance: the loop that starts, commits, serves, waits, cleans up and exits,
    against an environment that decides how each fallible call turns out. */
module Process {
  import opened Wrappers
  import opened Enablements
  import opened Store
  import opened SystemOps
  import opened Lifecycle

  const START := 0
  const COMMIT := 1
  const SERVE := 2
  const LIFECYCLE := 3
  const CLEANUP := 4
  const FINAL := 5

  datatype Listing = Listing(order: seq<Id>, unreadable: set<Id>, headers: seq<Option<Bits>>)

  datatype Env = Env(
    handleOk: bool, startOk: bool,
    commitLock: bool, saveFault: SaveFault, saveOk: bool, identifierOpen: bool, identifierOk: bool,
    applyOk: nat -> bool, rollOk: nat -> bool,
    serveOk: bool, waitStatus: Option<int>,
    cleanLock: bool, destroyOk: bool, entries: Option<Listing>, revertOk: nat -> bool)

  datatype Event = Did(action: Action) | Served(ok: bool) | Perror | Exit(code: int)

  /** What holds when the loop comes around: its state, and whether the segment lock and the shim
      pipe are held. */
  datatype Head = Head(state: nat, locked: bool, pipe: bool)

  /** The phase of the lifecycle the events lead to, if the local program allows them. */
  function Trace(prog: Program, events: seq<Event>): Option<Phase> {
    if events == [] then Some(Starting)
    else
      match Trace(prog, events[..|events| - 1])
      case None => None
      case Some(ph) =>
        var e := events[|events| - 1];
        if e.Did? then LocalStep(prog, ph, e.action) else Some(ph)
  }

  lemma TraceSnoc(prog: Program, events: seq<Event>, e: Event)
    ensures Trace(prog, events + [e]) ==
      match Trace(prog, events)
      case None => None
      case Some(ph) => if e.Did? then LocalStep(prog, ph, e.action) else Some(ph)
  {
    assert (events + [e])[..|events|] == events;
  }

  ghost predicate Complains(events: seq<Event>) {
    Perror in events
  }

  ghost predicate ServedOnlyRunning(prog: Program, events: seq<Event>) {
    forall k :: 0 <= k < |events| && events[k].Served? ==> Trace(prog, events[..k]) == Some(Running)
  }

  lemma ServedSnoc(prog: Program, events: seq<Event>, e: Event)
    requires ServedOnlyRunning(prog, events)
    requires e.Served? ==> Trace(prog, events) == Some(Running)
    ensures ServedOnlyRunning(prog, events + [e])
  {
    var all := events + [e];
    forall k | 0 <= k < |all| && all[k].Served? ensures Trace(prog, all[..k]) == Some(Running) {
      if k < |events| {
        assert all[..k] == events[..k];
      } else {
        assert all[..k] == events;
      }
    }
  }

  function Count(events: seq<Event>, a: Action): nat {
    if events == [] then 0
    else Count(events[..|events| - 1], a) + if events[|events| - 1] == Did(a) then 1 else 0
  }

  predicate Uncommitted(ph: Phase) {
    ph.Starting? || ph.Locked? || ph.Committing? || ph.Rolling? || ph.Doomed?
    || (ph.Cleaning? && !ph.committed) || (ph.Destroyed? && !ph.committed)
  }

  /** A process that ends has completed a revert exactly as often as a commit, at most once, and it
      completes the revert after the commit. */
  lemma {:induction false} RevertOncePerCommit(prog: Program, events: seq<Event>)
    requires Trace(prog, events).Some?
    ensures Count(events, RevertDone) <= Count(events, CommitDone) <= 1
    ensures var ph := Trace(prog, events).value;
      && (Uncommitted(ph) ==> Count(events, CommitDone) == 0)
      && (Committed(ph) || ph.Reverting? ==> Count(events, CommitDone) == 1 && Count(events, RevertDone) == 0)
      && (ph.Final? ==> Count(events, RevertDone) == Count(events, CommitDone))
  {
    if events != [] {
      var init := events[..|events| - 1];
      RevertOncePerCommit(prog, init);
      if events[|events| - 1].Did? {
        CommitStep(prog, Trace(prog, init).value, events[|events| - 1].action);
      }
    }
  }

  lemma CommitStep(prog: Program, ph: Phase, a: Action)
    requires LocalStep(prog, ph, a).Some?
    ensures var ph' := LocalStep(prog, ph, a).value;
      && (a == CommitDone ==> Uncommitted(ph) && ph'.Running?)
      && (a == RevertDone ==> ph.Reverting? && ph'.Final?)
      && (Uncommitted(ph') ==> Uncommitted(ph) && a != CommitDone && a != RevertDone)
      && (Committed(ph') ==> if a == CommitDone then Uncommitted(ph) else Committed(ph))
      && (ph'.Reverting? ==> (Committed(ph) || ph.Reverting?) && a != CommitDone && a != RevertDone)
      && (ph'.Final? ==> if a == RevertDone then ph.Reverting? else Uncommitted(ph))
      && !ph.Final? && !ph.Crashed?
  {
  }

  class Outcome {
    const prog: Program
    const env: Env
    var events: seq<Event>
    var heads: seq<Head>
    var processState: nat
    var isBeforeRevert: bool
    var entryHandle: bool
    var locked: bool
    var shimPipe: bool
    var exitCode: int

    constructor (prog: Program, env: Env)
      ensures this.prog == prog && this.env == env && events == [] && heads == []
      ensures processState == START && !isBeforeRevert && !entryHandle && !locked && !shimPipe && exitCode == 0
    {
      this.prog, this.env := prog, env;
      events, heads, processState, exitCode := [], [], START, 0;
      isBeforeRevert, entryHandle, locked, shimPipe := false, false, false, false;
    }

    /** The events are those of the local program, the payload was served only while committed,
        and a complaint is reflected in the exit code. */
    ghost predicate Sound()
      reads this
    {
      && Trace(prog, events).Some?
      && ServedOnlyRunning(prog, events)
      && (Complains(events) ==> exitCode != 0)
    }

    ghost function Phase(): Phase
      reads this
      requires Sound()
    {
      Trace(prog, events).value
    }

    method Emit(e: Event)
      requires Sound()
      requires e != Perror
      requires e.Did? ==> LocalStep(prog, Phase(), e.action).Some?
      requires e.Served? ==> Phase() == Running
      modifies this`events
      ensures events == old(events) + [e] && Sound()
      ensures Phase() == if e.Did? then LocalStep(prog, old(Phase()), e.action).value else old(Phase())
    {
      TraceSnoc(prog, events, e);
      ServedSnoc(prog, events, e);
      events := events + [e];
    }

    /** Reports an error: the pipe is closed and the exit code is made non-zero. */
    method Complain()
      requires Sound()
      modifies this`events, this`exitCode, this`shimPipe
      ensures events == old(events) + [Perror] && Sound() && Phase() == old(Phase())
      ensures !shimPipe && exitCode == if old(exitCode) == 0 then 1 else old(exitCode)
    {
      shimPipe := false;
      if exitCode == 0 {
        exitCode := 1;
      }
      TraceSnoc(prog, events, Perror);
      ServedSnoc(prog, events, Perror);
      events := events + [Perror];
    }

    /** Applies the operations; the first failure rolls back those applied, last first. */
    method CommitOps() returns (ok: bool)
      requires Sound() && Phase() == Committing(0)
      modifies this`events
      ensures Sound() && Phase() == if ok then Running else Doomed(true)
    {
      ok := true;
      var i := 0;
      while i < |prog.ops| && ok
        invariant Sound() && i <= |prog.ops|
        invariant Phase() == if ok then Committing(i) else Rolling(i)
        decreases |prog.ops| - i, ok
      {
        ok := env.applyOk(i);
        if ok {
          Emit(Did(ApplyOk));
          i := i + 1;
        } else {
          Emit(Did(ApplyFail));
        }
      }
      if ok {
        Emit(Did(CommitDone));
        return;
      }
      while i > 0
        invariant Sound() && Phase() == Rolling(i)
      {
        i := i - 1;
        Emit(Did(RollBack(env.rollOk(i))));
      }
      Emit(Did(RollDone));
    }

    /** Reverts the operations last first, going on after errors. */
    method RevertOps() returns (errs: nat)
      requires Sound() && Phase().Reverting? && Phase().remaining == |prog.ops|
      modifies this`events
      ensures Sound() && Phase() == Final
    {
      errs := 0;
      ghost var ph := Phase();
      var i := |prog.ops|;
      while i > 0
        invariant i >= 0 && Sound() && Phase() == Reverting(i, ph.ec, ph.locked)
      {
        i := i - 1;
        var ok := env.revertOk(i);
        if !ok {
          errs := errs + 1;
        }
        Emit(Did(RevertOp(ok)));
      }
      Emit(Did(RevertDone));
    }

    method ComplainFatal(newState: nat)
      requires Sound()
      modifies this`events, this`exitCode, this`shimPipe, this`processState
      ensures Sound() && Phase() == old(Phase()) && !shimPipe && processState == newState
    {
      Complain();
      processState := newState;
    }

    /** Saves the entry and writes the identifier, under the lock. */
    method SaveEntry() returns (ok: bool)
      requires Sound() && Phase() == Locked
      modifies this`events, this`entryHandle
      ensures Sound() && entryHandle && Phase() == if ok then Committing(0) else Doomed(true)
    {
      hide Trace;
      hide ServedOnlyRunning;
      entryHandle := true;
      Emit(Did(Save(env.saveFault, env.saveOk)));
      ok := env.saveOk;
      if ok && env.identifierOpen && !env.identifierOk {
        Emit(Did(IdentFail));
        ok := false;
      }
    }

    method ProcessCommit()
      requires Sound() && Phase() == Starting && !isBeforeRevert && !entryHandle && !locked
      modifies this`events, this`processState, this`isBeforeRevert, this`entryHandle, this`locked
      modifies this`shimPipe, this`exitCode
      ensures Sound() && !locked
      ensures if processState == SERVE then
                isBeforeRevert && entryHandle && Phase() == Running && shimPipe == old(shimPipe)
              else processState == LIFECYCLE && !isBeforeRevert && !shimPipe && Phase() == Doomed(entryHandle)
    {
      hide Trace;
      hide ServedOnlyRunning;
      if !env.commitLock {
        Emit(Did(LockCommitFail));
        ComplainFatal(LIFECYCLE);
        return;
      }
      locked := true;
      Emit(Did(LockCommit));
      var ok := SaveEntry();
      if ok {
        ok := CommitOps();
      }
      locked := false;
      if !ok {
        ComplainFatal(LIFECYCLE);
        return;
      }
      isBeforeRevert := true;
      processState := SERVE;
    }

    /** Locks the segment if it can, and destroys the entry if there is one. */
    method LockAndDestroy()
      requires Sound() && !locked
      requires if isBeforeRevert then entryHandle && Phase() == Running else Phase() == Doomed(entryHandle)
      modifies this`events, this`locked, this`shimPipe, this`exitCode
      ensures Sound() && locked == env.cleanLock && Phase() == Destroyed(isBeforeRevert, locked)
    {
      hide Trace;
      hide ServedOnlyRunning;
      locked := env.cleanLock;
      Emit(Did(if env.cleanLock then LockClean else LockCleanFail));
      if !env.cleanLock {
        Complain();
      }
      if entryHandle {
        Emit(Did(Destroy(env.destroyOk)));
        if !env.destroyOk {
          Complain();
        }
      } else {
        Emit(Did(NoEntry));
      }
    }

    /** Computes the criteria from the surviving entries, or falls back to process scope. */
    method ScanEntries()
      requires Sound() && Phase().Destroyed? && Phase().committed
      modifies this`events, this`shimPipe, this`exitCode
      ensures Sound() && Phase().Reverting? && Phase().remaining == |prog.ops|
      ensures Phase().ec == if env.entries.None? then PROCESS else Criteria(env.entries.value.headers)
    {
      hide Trace;
      hide ServedOnlyRunning;
      hide Criteria;
      if env.entries.None? {
        Complain();
        Emit(Did(ScanFail));
      } else {
        var l := env.entries.value;
        if None in l.headers {
          Complain();
        }
        Emit(Did(Scan(l.order, l.unreadable, l.headers)));
      }
    }

    method ProcessCleanup()
      requires Sound() && !locked
      requires if isBeforeRevert then entryHandle && Phase() == Running else Phase() == Doomed(entryHandle)
      modifies this`events, this`processState, this`isBeforeRevert, this`locked, this`shimPipe, this`exitCode
      ensures Sound() && Phase() == Final && !locked && !isBeforeRevert && processState == FINAL
    {
      hide Trace;
      hide ServedOnlyRunning;
      processState := FINAL;
      LockAndDestroy();
      if isBeforeRevert {
        ScanEntries();
        var errs := RevertOps();
        if errs > 0 {
          Complain();
        }
        isBeforeRevert := false;
      } else {
        Emit(Did(SkipRevert));
      }
      locked := false;
    }

    ghost predicate HeadInv()
      reads this
    {
      && Sound() && !locked && START <= processState <= FINAL
      && (processState == START ==> Phase() == Starting && !isBeforeRevert && !entryHandle)
      && (processState == COMMIT ==> Phase() == Starting && !isBeforeRevert && !entryHandle && shimPipe)
      && (processState == SERVE ==> Phase() == Running && isBeforeRevert && entryHandle && shimPipe)
      && (processState == LIFECYCLE ==> !shimPipe)
      && (processState == LIFECYCLE || processState == CLEANUP ==>
        if isBeforeRevert then entryHandle && Phase() == Running else Phase() == Doomed(entryHandle))
      && (processState == FINAL ==> Phase() == Final)
    }

    /** One turn of the loop. */
    method Turn()
      requires HeadInv() && processState < FINAL
      modifies this
      ensures HeadInv() && processState > old(processState) && heads == old(heads)
    {
      if processState == START {
        if !env.handleOk || !env.startOk {
          Emit(Did(StartFail));
          Complain();
          processState := FINAL;
        } else {
          shimPipe := true;
          processState := COMMIT;
        }
      } else if processState == COMMIT {
        if isBeforeRevert {
          assert false;
        }
        ProcessCommit();
      } else if processState == SERVE {
        processState := LIFECYCLE;
        var ok := shimPipe && env.serveOk;
        Emit(Served(ok));
        if ok {
          shimPipe := false;
        } else {
          Complain();
        }
      } else if processState == LIFECYCLE {
        processState := CLEANUP;
        if env.waitStatus.Some? && env.waitStatus.value != 0 {
          exitCode := env.waitStatus.value;
        }
      } else {
        ProcessCleanup();
      }
    }

    /** The process runs to its end: its states strictly increase up to the final one, at no turn is
        the segment locked, the pipe is gone when it waits, and its events are those of a local
        program that ends. */
    method Run()
      requires events == [] && heads == [] && processState == START && exitCode == 0
      requires !isBeforeRevert && !entryHandle && !locked && !shimPipe
      modifies this
      ensures |heads| > 0 && heads[0].state == START && heads[|heads| - 1].state == FINAL
      ensures forall k :: 0 < k < |heads| ==> heads[k - 1].state < heads[k].state
      ensures forall k :: 0 <= k < |heads| ==> !heads[k].locked && (heads[k].state == LIFECYCLE ==> !heads[k].pipe)
      ensures Trace(prog, events) == Some(Final)
      ensures ServedOnlyRunning(prog, events)
      ensures Perror in events ==> exitCode != 0
      ensures events[|events| - 1..] == [Exit(exitCode)]
    {
      heads := [Head(processState, locked, shimPipe)];
      while processState != FINAL
        invariant HeadInv()
        invariant |heads| > 0 && heads[0].state == START
        invariant heads[|heads| - 1] == Head(processState, locked, shimPipe)
        invariant forall k :: 0 < k < |heads| ==> heads[k - 1].state < heads[k].state
        invariant forall k :: 0 <= k < |heads| ==> !heads[k].locked && (heads[k].state == LIFECYCLE ==> !heads[k].pipe)
        decreases FINAL - processState
      {
        Turn();
        heads := heads + [Head(processState, locked, shimPipe)];
      }
      Emit(Exit(exitCode));
    }
  }
}

/** The bookkeeping of internal/lockedfile/internal/filelock/filelock_fcntl.go: locks that the
  * kernel attaches to an inode and a process are shared out between the files of one process.
  * The calls of lock and unlock are broken up where another goroutine can come in between: at
  * every release of mu, before the send on a channel, and at the receive that is done under mu. */
module FileLock {
  import opened Wrappers

  type File = nat

  type Inode = nat

  type Channel = nat

  /** An entry of the locks map; a missing entry reads as the zero value. */
  datatype InodeLock = InodeLock(owner: Option<File>, queue: seq<Channel>)

  /** Where the goroutine working on a file stands. */
  datatype Phase =
    | Idle
    | Enqueued(ino: Inode, ch: Channel)   // has left mu, has not reached the send
    | Sending(ino: Inode, ch: Channel)    // blocked in the send
    | Locking(ino: Inode)                 // past its wait, in setlkw
    | Held(ino: Inode)                    // lock has returned nil
    | Unlocking(ino: Inode)               // between the two critical sections of unlock
    | Receiving(ino: Inode, ch: Channel)  // blocked in the receive, mu held

  /** arrived and granted record, per inode, the files in the order in which they asked for the
    * lock and in the order in which they became its owner; made counts the channels made. */
  datatype State = State(
    inodes: map<File, Inode>,
    locks: map<Inode, InodeLock>,
    mu: Option<File>,
    made: nat,
    phases: map<File, Phase>,
    arrived: map<Inode, seq<File>>,
    granted: map<Inode, seq<File>>
  )

  datatype Action =
    | Enter(f: File, ino: Inode)        // lock, up to the release of mu; ino is what Stat says
    | Reach(f: File)                    // lock, up to the send
    | Acquire(f: File)                  // setlkw succeeds and lock returns
    | Check(f: File)                    // unlock, up to the first release of mu
    | Finish(f: File)                   // unlock, from the second mu.Lock to its end or to the receive
    | Receive(f: File, g: File)         // g hands itself over to f, which leaves unlock

  const INITIAL: State := State(map[], map[], None, 0, map[], map[], map[])

  function At(phases: map<File, Phase>, f: File): Phase {
    if f in phases then phases[f] else Idle
  }

  function PhaseOf(s: State, f: File): Phase {
    At(s.phases, f)
  }

  function LockOf(locks: map<Inode, InodeLock>, ino: Inode): InodeLock {
    if ino in locks then locks[ino] else InodeLock(None, [])
  }

  function Record(m: map<Inode, seq<File>>, ino: Inode): seq<File> {
    if ino in m then m[ino] else []
  }

  predicate Waits(p: Phase) {
    p.Enqueued? || p.Sending?
  }

  /** The file has the lock of its inode as far as this process is concerned. */
  predicate PastWait(p: Phase) {
    p.Locking? || p.Held? || p.Unlocking? || p.Receiving?
  }

  /** Files that can start a call: one call at a time is outstanding on each. */
  predicate Callable(p: Phase) {
    p.Idle? || p.Held?
  }

  /** The owner that unlock finds for its argument. */
  function OwnerSeen(s: State, f: File): Option<File> {
    if f in s.inodes then LockOf(s.locks, s.inodes[f]).owner else None
  }

  /** Whether the goroutines can take this step. unlock is called for a file whose lock has
    * returned, or by lock itself once setlkw has failed. */
  predicate Enabled(s: State, a: Action) {
    match a
    case Enter(f, _) => s.mu.None? && Callable(PhaseOf(s, f))
    case Reach(f) => PhaseOf(s, f).Enqueued?
    case Acquire(f) => PhaseOf(s, f).Locking?
    case Check(f) => s.mu.None? && (PhaseOf(s, f).Held? || PhaseOf(s, f).Locking?)
    case Finish(f) => s.mu.None? && PhaseOf(s, f).Unlocking?
    case Receive(f, g) =>
      PhaseOf(s, f).Receiving? && PhaseOf(s, g).Sending? && PhaseOf(s, f).ch == PhaseOf(s, g).ch
  }

  /** lock's critical section after the test for a changed inode
    * (filelock_fcntl.go:68-84). */
  function Entered(s: State, f: File, ino: Inode): State {
    var l := LockOf(s.locks, ino);
    var inodes := s.inodes[f := ino];
    if l.owner == Some(f) then
      State(inodes, s.locks[ino := l], s.mu, s.made, s.phases[f := Locking(ino)], s.arrived, s.granted)
    else if l.owner.None? then
      State(inodes, s.locks[ino := InodeLock(Some(f), l.queue)], s.mu, s.made, s.phases[f := Locking(ino)],
            s.arrived[ino := Record(s.arrived, ino) + [f]], s.granted[ino := Record(s.granted, ino) + [f]])
    else
      State(inodes, s.locks[ino := InodeLock(l.owner, l.queue + [s.made])], s.mu, s.made + 1,
            s.phases[f := Enqueued(ino, s.made)], s.arrived[ino := Record(s.arrived, ino) + [f]], s.granted)
  }

  function Take(s: State, a: Action): State
    requires Enabled(s, a)
  {
    match a
    case Enter(f, ino) =>
      if f in s.inodes && s.inodes[f] != ino then s else Entered(s, f, ino)
    case Reach(f) =>
      s.(phases := s.phases[f := Sending(PhaseOf(s, f).ino, PhaseOf(s, f).ch)])
    case Acquire(f) =>
      s.(phases := s.phases[f := Held(PhaseOf(s, f).ino)])
    case Check(f) =>
      s.(phases := s.phases[f := Unlocking(if f in s.inodes then s.inodes[f] else 0)])
    case Finish(f) =>
      var ino := PhaseOf(s, f).ino;
      var l := LockOf(s.locks, ino);
      if l.queue == [] then
        s.(locks := s.locks - {ino}, inodes := s.inodes - {f}, phases := s.phases[f := Idle])
      else
        s.(mu := Some(f), phases := s.phases[f := Receiving(ino, l.queue[0])])
    case Receive(f, g) =>
      var ino := PhaseOf(s, f).ino;
      var l := LockOf(s.locks, ino);
      s.(locks := s.locks[ino := InodeLock(Some(g), if l.queue == [] then [] else l.queue[1..])],
         inodes := s.inodes - {f},
         mu := None,
         phases := s.phases[f := Idle][g := Locking(ino)],
         granted := s.granted[ino := Record(s.granted, ino) + [g]])
  }

  predicate IsRun(s: State, run: seq<Action>)
    decreases |run|
  {
    run == [] || (Enabled(s, run[0]) && IsRun(Take(s, run[0]), run[1..]))
  }

  function Final(s: State, run: seq<Action>): State
    requires IsRun(s, run)
    decreases |run|
  {
    if run == [] then s else Final(Take(s, run[0]), run[1..])
  }

  /** The files that have asked for the lock and not been granted it, longest wait first. */
  function Waiters(s: State, ino: Inode): seq<File> {
    var n := |Record(s.granted, ino)|;
    if n <= |Record(s.arrived, ino)| then Record(s.arrived, ino)[n..] else []
  }

  /** The file is about to send, or blocked in the send, on this channel. */
  predicate Stands(p: Phase, ino: Inode, ch: Channel) {
    p == Enqueued(ino, ch) || p == Sending(ino, ch)
  }

  /** The files stand in line on these channels. */
  predicate Matched(phases: map<File, Phase>, files: seq<File>, queue: seq<Channel>, ino: Inode) {
    && |files| == |queue|
    && forall i :: 0 <= i < |queue| ==> Stands(At(phases, files[i]), ino, queue[i])
  }

  /** The channels were made here, and none is queued twice. */
  predicate Distinct(queue: seq<Channel>, made: nat) {
    && (forall i :: 0 <= i < |queue| ==> queue[i] < made)
    && (forall i, j :: 0 <= i < j < |queue| ==> queue[i] != queue[j])
  }

  /** What the maps say about a file: inodes names it while it has a call under way, it is the
    * owner once past its wait, its channel is queued while it waits, and it keeps mu only to
    * receive from the head of the queue. */
  predicate FileOk(s: State, f: File) {
    var p := PhaseOf(s, f);
    && (f in s.inodes <==> !p.Idle?)
    && (f in s.inodes ==> s.inodes[f] == p.ino)
    && (PastWait(p) ==> LockOf(s.locks, p.ino).owner == Some(f))
    && (Waits(p) ==> p.ch < s.made && p.ch in LockOf(s.locks, p.ino).queue)
    && (s.mu == Some(f) <==> p.Receiving?)
    && (p.Receiving? ==> LockOf(s.locks, p.ino).queue != [] && LockOf(s.locks, p.ino).queue[0] == p.ch)
  }

  /** The owner is past the wait and the last one granted. */
  predicate OwnerOk(s: State, ino: Inode) {
    var owner := LockOf(s.locks, ino).owner;
    var granted := Record(s.granted, ino);
    && (ino in s.locks <==> owner.Some?)
    && (owner.Some? ==>
          && PastWait(PhaseOf(s, owner.value))
          && PhaseOf(s, owner.value).ino == ino
          && granted != []
          && granted[|granted| - 1] == owner.value)
  }

  /** The lock goes round in the order of arrival, and the queue holds the waiters' channels in that order. */
  predicate LineOk(s: State, ino: Inode) {
    var queue := LockOf(s.locks, ino).queue;
    && Record(s.granted, ino) <= Record(s.arrived, ino)
    && Matched(s.phases, Waiters(s, ino), queue, ino)
    && Distinct(queue, s.made)
  }

  predicate LockOk(s: State, ino: Inode) {
    OwnerOk(s, ino) && LineOk(s, ino)
  }

  predicate Apart(s: State, f: File, g: File) {
    Waits(PhaseOf(s, f)) && Waits(PhaseOf(s, g)) && PhaseOf(s, f).ch == PhaseOf(s, g).ch ==> f == g
  }

  ghost predicate Inv(s: State) {
    && (forall f :: FileOk(s, f))
    && (forall ino :: LockOk(s, ino))
    && (forall f, g :: Apart(s, f, g))
  }

  /** The file that hands itself over is the first one waiting for the receiver's inode. */
  lemma SenderIsNext(s: State, f: File, g: File)
    requires Inv(s) && Enabled(s, Receive(f, g))
    ensures f != g && PhaseOf(s, g).ino == PhaseOf(s, f).ino
    ensures Waiters(s, PhaseOf(s, f).ino) != [] && Waiters(s, PhaseOf(s, f).ino)[0] == g
  {
    var ino := PhaseOf(s, f).ino;
    assert FileOk(s, f) && LockOk(s, ino);
    var first := Waiters(s, ino)[0];
    assert Stands(PhaseOf(s, first), ino, PhaseOf(s, g).ch);
    assert Apart(s, g, first);
  }

  lemma EnterKeepsFile(s: State, f: File, ino: Inode, h: File)
    requires Inv(s) && Enabled(s, Enter(f, ino))
    ensures FileOk(Take(s, Enter(f, ino)), h)
  {
    assert FileOk(s, h) && FileOk(s, f) && LockOk(s, ino);
    hide Inv, LineOk;
  }

  lemma ReceiveKeepsFile(s: State, f: File, g: File, h: File)
    requires Inv(s) && Enabled(s, Receive(f, g))
    ensures FileOk(Take(s, Receive(f, g)), h)
  {
    SenderIsNext(s, f, g);
    assert FileOk(s, h) && FileOk(s, f) && FileOk(s, g) && Apart(s, g, h);
    hide Inv, Waiters;
  }

  lemma MoveKeepsFile(s: State, a: Action, h: File)
    requires Inv(s) && Enabled(s, a) && !a.Enter? && !a.Receive?
    ensures FileOk(Take(s, a), h)
  {
    assert FileOk(s, h) && FileOk(s, a.f);
    hide Inv;
  }

  lemma FileKept(s: State, a: Action, h: File)
    requires Inv(s) && Enabled(s, a)
    ensures FileOk(Take(s, a), h)
  {
    hide Inv, FileOk, Enabled, Take;
    match a
    case Enter(f, ino) => EnterKeepsFile(s, f, ino, h);
    case Receive(f, g) => ReceiveKeepsFile(s, f, g, h);
    case _ => MoveKeepsFile(s, a, h);
  }

  lemma MoveMatched(phases: map<File, Phase>, files: seq<File>, queue: seq<Channel>, ino: Inode, f: File, p: Phase)
    requires Matched(phases, files, queue, ino)
    requires !Waits(At(phases, f)) || (At(phases, f).Enqueued? && p == Sending(At(phases, f).ino, At(phases, f).ch))
    ensures Matched(phases[f := p], files, queue, ino)
  {
  }

  lemma JoinMatched(phases: map<File, Phase>, files: seq<File>, queue: seq<Channel>, ino: Inode, f: File, c: Channel)
    requires Matched(phases, files, queue, ino) && !Waits(At(phases, f))
    ensures Matched(phases[f := Enqueued(ino, c)], files + [f], queue + [c], ino)
  {
    MoveMatched(phases, files, queue, ino, f, Enqueued(ino, c));
  }

  lemma LeaveMatched(phases: map<File, Phase>, files: seq<File>, queue: seq<Channel>, ino: Inode, g: File, made: nat)
    requires Matched(phases, files, queue, ino) && Distinct(queue, made) && files != [] && files[0] == g
    ensures Matched(phases[g := Locking(ino)], files[1..], queue[1..], ino) && Distinct(queue[1..], made)
  {
  }

  lemma JoinDistinct(queue: seq<Channel>, made: nat)
    requires Distinct(queue, made)
    ensures Distinct(queue, made + 1) && Distinct(queue + [made], made + 1)
  {
  }

  lemma EnterKeepsOwner(s: State, f: File, ino: Inode, j: Inode)
    requires Inv(s) && Enabled(s, Enter(f, ino))
    ensures OwnerOk(Take(s, Enter(f, ino)), j)
  {
    assert FileOk(s, f) && LockOk(s, j);
    hide Inv, LineOk;
  }

  /** Whether entering puts the file in line. */
  predicate Joins(s: State, f: File, ino: Inode) {
    Enabled(s, Enter(f, ino)) && Take(s, Enter(f, ino)) != s
    && LockOf(s.locks, ino).owner.Some? && LockOf(s.locks, ino).owner != Some(f)
  }

  lemma JoinKeepsLine(s: State, f: File, ino: Inode)
    requires FileOk(s, f) && LineOk(s, ino) && Joins(s, f, ino)
    ensures LineOk(Take(s, Enter(f, ino)), ino)
  {
    var t := Take(s, Enter(f, ino));
    var queue := LockOf(s.locks, ino).queue;
    JoinDistinct(queue, s.made);
    JoinMatched(s.phases, Waiters(s, ino), queue, ino, f, s.made);
    hide Matched, Distinct, FileOk;
    assert Record(t.arrived, ino) == Record(s.arrived, ino) + [f] && Record(t.granted, ino) == Record(s.granted, ino);
    assert Waiters(t, ino) == Waiters(s, ino) + [f];
  }

  lemma PassKeepsLine(s: State, f: File, ino: Inode, j: Inode)
    requires Enabled(s, Enter(f, ino)) && FileOk(s, f) && LineOk(s, j) && !(j == ino && Joins(s, f, ino))
    requires Take(s, Enter(f, ino)) != s
    requires LockOf(s.locks, j).owner.None? ==> LockOf(s.locks, j).queue == []
    ensures LineOk(Take(s, Enter(f, ino)), j)
  {
    var t := Take(s, Enter(f, ino));
    var queue := LockOf(s.locks, j).queue;
    JoinDistinct(queue, s.made);
    MoveMatched(s.phases, Waiters(s, j), queue, j, f, PhaseOf(t, f));
    assert |Waiters(s, j)| == |queue|;
    hide Matched, Distinct, FileOk;
    assert LockOf(t.locks, j).queue == queue && s.made <= t.made <= s.made + 1;
    assert t.phases == s.phases[f := PhaseOf(t, f)];
    assert Waiters(t, j) == Waiters(s, j);
    hide Take, Enabled, Joins, Waiters;
  }

  lemma EnterKeepsLine(s: State, f: File, ino: Inode, j: Inode)
    requires Inv(s) && Enabled(s, Enter(f, ino))
    ensures LineOk(Take(s, Enter(f, ino)), j)
  {
    assert FileOk(s, f) && LockOk(s, j);
    hide Inv, FileOk, LineOk;
    if Take(s, Enter(f, ino)) != s {
      if j == ino && Joins(s, f, ino) {
        JoinKeepsLine(s, f, ino);
      } else {
        PassKeepsLine(s, f, ino, j);
      }
    }
  }

  lemma ReceiveKeepsOwner(s: State, f: File, g: File, j: Inode)
    requires Inv(s) && Enabled(s, Receive(f, g))
    ensures OwnerOk(Take(s, Receive(f, g)), j)
  {
    SenderIsNext(s, f, g);
    assert FileOk(s, f) && FileOk(s, g) && LockOk(s, j);
    hide Inv, LineOk, Waiters;
  }

  lemma ReceiveKeepsLine(s: State, f: File, g: File, j: Inode)
    requires Inv(s) && Enabled(s, Receive(f, g))
    ensures LineOk(Take(s, Receive(f, g)), j)
  {
    var t := Take(s, Receive(f, g));
    assert LockOk(s, j);
    SenderIsNext(s, f, g);
    hide Inv, FileOk, OwnerOk;
    var queue := LockOf(s.locks, j).queue;
    var phases := s.phases[f := Idle];
    MoveMatched(s.phases, Waiters(s, j), queue, j, f, Idle);
    if j == PhaseOf(s, f).ino {
      LeaveMatched(phases, Waiters(s, j), queue, j, g, s.made);
      assert Waiters(t, j) == Waiters(s, j)[1..];
    } else {
      OtherMatched(phases, Waiters(s, j), queue, j, g, Locking(PhaseOf(s, f).ino));
      assert Waiters(t, j) == Waiters(s, j);
    }
    hide Distinct, Matched;
  }

  lemma OtherMatched(phases: map<File, Phase>, files: seq<File>, queue: seq<Channel>, ino: Inode, g: File, p: Phase)
    requires Matched(phases, files, queue, ino) && Waits(At(phases, g)) && At(phases, g).ino != ino
    ensures Matched(phases[g := p], files, queue, ino)
  {
  }

  lemma MoveKeepsLock(s: State, a: Action, j: Inode)
    requires Inv(s) && Enabled(s, a) && !a.Enter? && !a.Receive?
    ensures LockOk(Take(s, a), j)
  {
    var t := Take(s, a);
    assert FileOk(s, a.f) && LockOk(s, j);
    hide Inv;
    MoveMatched(s.phases, Waiters(s, j), LockOf(s.locks, j).queue, j, a.f, PhaseOf(t, a.f));
    assert Waiters(t, j) == Waiters(s, j);
    hide Matched, Distinct;
  }

  lemma LockKept(s: State, a: Action, j: Inode)
    requires Inv(s) && Enabled(s, a)
    ensures LockOk(Take(s, a), j)
  {
    hide Inv, OwnerOk, LineOk, Enabled, Take;
    match a
    case Enter(f, ino) =>
      EnterKeepsOwner(s, f, ino, j);
      EnterKeepsLine(s, f, ino, j);
    case Receive(f, g) =>
      ReceiveKeepsOwner(s, f, g, j);
      ReceiveKeepsLine(s, f, g, j);
    case _ =>
      MoveKeepsLock(s, a, j);
  }

  lemma ApartKept(s: State, a: Action, g: File, h: File)
    requires Inv(s) && Enabled(s, a)
    ensures Apart(Take(s, a), g, h)
  {
    assert FileOk(s, g) && FileOk(s, h) && Apart(s, g, h);
    hide Inv;
  }

  lemma StepKeepsInv(s: State, a: Action)
    requires Inv(s) && Enabled(s, a)
    ensures Inv(Take(s, a))
  {
    forall h: File ensures FileOk(Take(s, a), h) {
      FileKept(s, a, h);
    }
    forall j: Inode ensures LockOk(Take(s, a), j) {
      LockKept(s, a, j);
    }
    forall g: File, h: File ensures Apart(Take(s, a), g, h) {
      ApartKept(s, a, g, h);
    }
    hide FileOk, LockOk, Apart, Take, Enabled;
  }

  lemma {:induction false} RunKeepsInv(s: State, run: seq<Action>)
    requires Inv(s) && IsRun(s, run)
    ensures Inv(Final(s, run))
    decreases |run|
  {
    if run != [] {
      StepKeepsInv(s, run[0]);
      RunKeepsInv(Take(s, run[0]), run[1..]);
    }
  }

  lemma ReachableInv(run: seq<Action>)
    requires IsRun(INITIAL, run)
    ensures Inv(Final(INITIAL, run))
  {
    RunKeepsInv(INITIAL, run);
  }

  /** No two files of the process are past their wait for one inode. */
  lemma Exclusive(run: seq<Action>, f: File, g: File)
    requires IsRun(INITIAL, run)
    ensures var s := Final(INITIAL, run);
      PastWait(PhaseOf(s, f)) && PastWait(PhaseOf(s, g)) && PhaseOf(s, f).ino == PhaseOf(s, g).ino ==> f == g
  {
    ReachableInv(run);
    assert FileOk(Final(INITIAL, run), f) && FileOk(Final(INITIAL, run), g);
  }

  /** A waiter's channel is queued once, for the inode it waits for, and the inode has an owner
    * past its wait to hand the lock on. */
  lemma QueuedOnce(run: seq<Action>, f: File, ino: Inode, k: nat)
    requires IsRun(INITIAL, run)
    requires Waits(PhaseOf(Final(INITIAL, run), f))
    requires k < |LockOf(Final(INITIAL, run).locks, ino).queue|
    ensures var s := Final(INITIAL, run);
      var l := LockOf(s.locks, ino);
      && (l.queue[k] == PhaseOf(s, f).ch <==> |Waiters(s, ino)| == |l.queue| && Waiters(s, ino)[k] == f)
      && (l.queue[k] == PhaseOf(s, f).ch ==>
            && ino == PhaseOf(s, f).ino
            && l.owner.Some? && PastWait(PhaseOf(s, l.owner.value))
            && forall i :: 0 <= i < |l.queue| && i != k ==> l.queue[i] != l.queue[k])
  {
    var s := Final(INITIAL, run);
    ReachableInv(run);
    assert FileOk(s, f) && LockOk(s, ino);
    var w := Waiters(s, ino)[k];
    assert Stands(PhaseOf(s, w), ino, LockOf(s.locks, ino).queue[k]);
    assert Apart(s, f, w);
  }

  /** Every waiter is in the queue of its inode. */
  lemma WaiterIsQueued(run: seq<Action>, f: File)
    requires IsRun(INITIAL, run)
    requires Waits(PhaseOf(Final(INITIAL, run), f))
    ensures var s := Final(INITIAL, run); f in Waiters(s, PhaseOf(s, f).ino)
  {
    var s := Final(INITIAL, run);
    ReachableInv(run);
    var ino := PhaseOf(s, f).ino;
    assert FileOk(s, f) && LockOk(s, ino);
    var k :| 0 <= k < |LockOf(s.locks, ino).queue| && LockOf(s.locks, ino).queue[k] == PhaseOf(s, f).ch;
    QueuedOnce(run, f, ino, k);
    assert Waiters(s, ino)[k] == f;
  }

  lemma StepGrows(s: State, a: Action, ino: Inode)
    requires Enabled(s, a)
    ensures Record(s.arrived, ino) <= Record(Take(s, a).arrived, ino)
    ensures Record(s.granted, ino) <= Record(Take(s, a).granted, ino)
  {
  }

  lemma {:induction false} RunGrows(s: State, run: seq<Action>, ino: Inode)
    requires IsRun(s, run)
    ensures Record(s.arrived, ino) <= Record(Final(s, run).arrived, ino)
    ensures Record(s.granted, ino) <= Record(Final(s, run).granted, ino)
    decreases |run|
  {
    if run != [] {
      StepGrows(s, run[0], ino);
      RunGrows(Take(s, run[0]), run[1..], ino);
    }
  }

  /** The lock is handed on in the order of arrival: of the files waiting in s, the one with k
    * before it is granted by exactly the grant number k after s, and waits until then. */
  lemma GrantedInTurn(s: State, run: seq<Action>, ino: Inode, k: nat)
    requires Inv(s) && IsRun(s, run)
    requires k < |Waiters(s, ino)|
    ensures var t := Final(s, run);
      var n := |Record(t.granted, ino)| - |Record(s.granted, ino)|;
      && n >= 0
      && (n <= k ==> k - n < |Waiters(t, ino)| && Waiters(t, ino)[k - n] == Waiters(s, ino)[k])
      && (n > k ==> Record(t.granted, ino)[|Record(s.granted, ino)| + k] == Waiters(s, ino)[k])
  {
    RunGrows(s, run, ino);
    RunKeepsInv(s, run);
    assert LockOk(s, ino) && LockOk(Final(s, run), ino);
  }

  /** While a file receives under mu, exactly one file has the other end of its channel, and the
    * steps of that file up to the hand-over need no mu. */
  lemma ReceiveHasSender(run: seq<Action>, f: File) returns (g: File)
    requires IsRun(INITIAL, run)
    requires Final(INITIAL, run).mu == Some(f)
    ensures var s := Final(INITIAL, run);
      && PhaseOf(s, f).Receiving?
      && Waits(PhaseOf(s, g)) && PhaseOf(s, g).ch == PhaseOf(s, f).ch
      && (forall h: File :: Waits(PhaseOf(s, h)) && PhaseOf(s, h).ch == PhaseOf(s, f).ch ==> h == g)
      && (PhaseOf(s, g).Enqueued? ==> Enabled(s, Reach(g)) && Enabled(Take(s, Reach(g)), Receive(f, g)))
      && (PhaseOf(s, g).Sending? ==> Enabled(s, Receive(f, g)))
  {
    var s := Final(INITIAL, run);
    ReachableInv(run);
    assert FileOk(s, f);
    var ino := PhaseOf(s, f).ino;
    assert LockOk(s, ino);
    g := Waiters(s, ino)[0];
    assert Stands(PhaseOf(s, g), ino, PhaseOf(s, f).ch);
    forall h: File | Waits(PhaseOf(s, h)) && PhaseOf(s, h).ch == PhaseOf(s, f).ch ensures h == g {
      assert Apart(s, h, g);
    }
  }

  /** unlock panics exactly on files that are not past their wait; so neither a caller whose lock
    * returned nil nor lock itself, giving up after setlkw, meets the panic. */
  lemma PanicsIffNotPastWait(run: seq<Action>, f: File)
    requires IsRun(INITIAL, run)
    ensures var s := Final(INITIAL, run); OwnerSeen(s, f) == Some(f) <==> PastWait(PhaseOf(s, f))
  {
    var s := Final(INITIAL, run);
    ReachableInv(run);
    assert FileOk(s, f);
    if f in s.inodes {
      assert LockOk(s, s.inodes[f]);
    }
  }

  datatype Entry = Changed | Mine | Wait(ch: Channel)

  /** The package's variables. What the goroutines are doing and the two records are ghost. */
  class Filelock {
    var inodes: map<File, Inode>
    var locks: map<Inode, InodeLock>
    var mu: Option<File>
    var made: nat
    ghost var phases: map<File, Phase>
    ghost var arrived: map<Inode, seq<File>>
    ghost var granted: map<Inode, seq<File>>

    constructor ()
      ensures View() == INITIAL
    {
      inodes, locks, mu, made := map[], map[], None, 0;
      phases, arrived, granted := map[], map[], map[];
    }

    ghost function View(): State
      reads this
    {
      State(inodes, locks, mu, made, phases, arrived, granted)
    }

    /** lock up to the release of mu, for a file that is on inode ino. */
    method Enter(f: File, ino: Inode) returns (r: Entry)
      requires Inv(View()) && Enabled(View(), Action.Enter(f, ino))
      modifies this
      ensures View() == Take(old(View()), Action.Enter(f, ino))
      ensures r.Changed? <==> old(PhaseOf(View(), f).Held? && PhaseOf(View(), f).ino != ino)
      ensures r.Mine? ==> PhaseOf(View(), f) == Locking(ino)
      ensures r.Wait? ==> PhaseOf(View(), f) == Enqueued(ino, r.ch)
    {
      assert FileOk(View(), f) && LockOk(View(), ino);
      if f in inodes && inodes[f] != ino {
        return Changed;
      }
      inodes := inodes[f := ino];
      var l := LockOf(locks, ino);
      if l.owner == Some(f) {
        r := Mine;
        phases := phases[f := Locking(ino)];
      } else if l.owner.None? {
        l := l.(owner := Some(f));
        r := Mine;
        phases := phases[f := Locking(ino)];
        arrived := arrived[ino := Record(arrived, ino) + [f]];
        granted := granted[ino := Record(granted, ino) + [f]];
      } else {
        r := Wait(made);
        made := made + 1;
        l := l.(queue := l.queue + [r.ch]);
        phases := phases[f := Enqueued(ino, r.ch)];
        arrived := arrived[ino := Record(arrived, ino) + [f]];
      }
      locks := locks[ino := l];
    }

    /** unlock up to the first release of mu. */
    method Check(f: File) returns (panics: bool, ino: Inode)
      requires mu.None?
      modifies `phases
      ensures panics <==> OwnerSeen(old(View()), f) != Some(f)
      ensures panics ==> phases == old(phases)
      ensures !panics && Enabled(old(View()), Action.Check(f)) ==> View() == Take(old(View()), Action.Check(f))
      ensures !panics ==> PhaseOf(View(), f) == Unlocking(ino)
    {
      ino := if f in inodes then inodes[f] else 0;
      var owner := if f in inodes then LockOf(locks, ino).owner else None;
      panics := owner != Some(f);
      if !panics {
        phases := phases[f := Unlocking(ino)];
      }
    }

    /** unlock from the second mu.Lock: to its end, or to the receive from the channel returned. */
    method Finish(f: File, ino: Inode) returns (head: Option<Channel>)
      requires Enabled(View(), Action.Finish(f)) && PhaseOf(View(), f).ino == ino
      modifies this
      ensures View() == Take(old(View()), Action.Finish(f))
      ensures head.None? <==> mu.None?
      ensures head.Some? ==> PhaseOf(View(), f) == Receiving(ino, head.value)
    {
      var l := LockOf(locks, ino);
      if |l.queue| == 0 {
        locks := locks - {ino};
        inodes := inodes - {f};
        phases := phases[f := Idle];
        head := None;
      } else {
        mu := Some(f);
        head := Some(l.queue[0]);
        phases := phases[f := Receiving(ino, l.queue[0])];
      }
    }

    /** unlock from the receive of g to its end. */
    method Receive(f: File, ino: Inode, g: File)
      requires Inv(View()) && Enabled(View(), Action.Receive(f, g)) && PhaseOf(View(), f).ino == ino
      modifies this
      ensures View() == Take(old(View()), Action.Receive(f, g))
      ensures Inv(View()) && mu.None?
      ensures PhaseOf(View(), f).Idle? && PhaseOf(View(), g) == Locking(ino)
    {
      assert FileOk(View(), f);
      StepKeepsInv(View(), Action.Receive(f, g));
      var l := LockOf(locks, ino);
      l := InodeLock(Some(g), l.queue[1..]);
      locks := locks[ino := l];
      inodes := inodes - {f};
      mu := None;
      phases := phases[f := Idle][g := Locking(ino)];
      granted := granted[ino := Record(granted, ino) + [g]];
    }
  }
}

/** Withholding output between Suspend and Resume (message/output.go). */
module Output {
  import opened Wrappers

  type Byte = bv8

  /** The buffer never grows past this many bytes. */
  const MAX := 0x100_0000

  /** What the buffer takes of a write: as much as there is room for. */
  function Accepted(held: seq<Byte>, p: seq<Byte>): (n: nat)
    ensures n <= |p|
    ensures n == |p| <==> |p| == 0 || |held| + |p| <= MAX
  {
    var free := MAX - |held|;
    if free >= |p| then |p| else if free <= 0 then 0 else free
  }

  function Concat(ps: seq<seq<Byte>>): seq<Byte> {
    if ps == [] then [] else Concat(ps[..|ps| - 1]) + ps[|ps| - 1]
  }

  /** The writer on its own: no two calls overlap. */
  class Suspendable {
    var s: bool
    var buf: seq<Byte>
    var dropped: nat
    /** What Downstream has received. */
    var downstream: seq<Byte>
    /** The writes withheld since the buffer was last emptied. */
    ghost var withheld: seq<seq<Byte>>

    /** The buffer is the start of what was withheld, and dropped counts the rest. */
    ghost predicate Valid()
      reads this
    {
      var all := Concat(withheld);
      && buf == all[..if |all| <= MAX then |all| else MAX]
      && |buf| + dropped == |all|
    }

    constructor ()
      ensures Valid() && !s && buf == [] && downstream == [] && withheld == []
    {
      s, buf, dropped, downstream, withheld := false, [], 0, [], [];
    }

    /** A call of Write, with an error exactly if bytes of p are left over; limit is how much
        Downstream takes before it fails, and with None it does not fail. */
    method Write(p: seq<Byte>, limit: Option<nat>) returns (n: nat, failed: bool)
      requires Valid()
      modifies this
      ensures Valid() && s == old(s) && n <= |p| && (failed <==> n < |p|)
      ensures !s ==> downstream == old(downstream) + p[..n] && buf == old(buf) && withheld == old(withheld)
      ensures !s ==> n == if limit.Some? && limit.value < |p| then limit.value else |p|
      ensures s ==> downstream == old(downstream) && withheld == old(withheld) + [p]
      ensures s ==> buf == old(buf) + p[..n] && dropped == old(dropped) + |p| - n
    {
      if !s {
        n := if limit.Some? && limit.value < |p| then limit.value else |p|;
        downstream := downstream + p[..n];
        return n, n < |p|;
      }
      ghost var all := Concat(withheld);
      withheld := withheld + [p];
      assert withheld[..|withheld| - 1] == old(withheld);
      assert Concat(withheld) == all + p;
      var free := MAX - |buf|;
      if free < |p| {
        if free <= 0 {
          dropped := dropped + |p|;
          assert (all + p)[..MAX] == all[..MAX];
          return 0, true;
        }
        buf := buf + p[..free];
        dropped := dropped + (|p| - free);
        assert (all + p)[..MAX] == all + p[..free];
        return free, true;
      }
      buf := buf + p;
      assert (all + p)[..|all + p|] == all + p;
      assert p[..|p|] == p;
      return |p|, false;
    }

    method Suspend() returns (suspended: bool)
      modifies `s
      ensures s && suspended == !old(s)
    {
      suspended := !s;
      s := true;
    }

    /** limit is how much Downstream takes before it fails; with None it does not fail. */
    method Resume(limit: Option<nat>) returns (resumed: bool, lost: nat, n: nat, failed: bool)
      requires Valid()
      modifies this
      ensures Valid() && !s && resumed == old(s)
      ensures !resumed ==> downstream == old(downstream) && buf == old(buf) && dropped == old(dropped)
      ensures resumed ==> buf == [] && dropped == 0 && withheld == []
      ensures resumed ==> n <= old(|buf|) && downstream == old(downstream) + old(buf)[..n]
      ensures resumed && !failed ==> n == old(|buf|) && n + lost == |Concat(old(withheld))|
      ensures limit.None? ==> !failed
    {
      resumed, lost, n, failed := s, 0, 0, false;
      if s {
        s := false;
        lost, dropped := dropped, 0;
        if limit.Some? && limit.value < |buf| {
          n, failed := limit.value, true;
        } else {
          n := |buf|;
        }
        downstream := downstream + buf[..n];
        buf, withheld := [], [];
      }
    }
  }

  /*
   * Overlapping calls. A write is one step up to its load of s, with its output if it goes
   * downstream, and a second one under bufMu; Resume is its exchange of s and its flush.
   */

  /** Ids stand for goroutines; writing and resuming hold those between their two steps. */
  datatype State = State(
    s: bool,
    buf: seq<Byte>,
    dropped: nat,
    downstream: seq<Byte>,
    writing: map<nat, seq<Byte>>,
    resuming: set<nat>
  )

  datatype Action =
    | Load(id: nat, p: seq<Byte>)
    | Append(id: nat)
    | Suspend
    | Exchange(id: nat)
    | Flush(id: nat)

  const INITIAL: State := State(false, [], 0, [], map[], {})

  predicate Enabled(s: State, a: Action) {
    match a
    case Load(id, _) => id !in s.writing
    case Append(id) => id in s.writing
    case Suspend => true
    case Exchange(id) => id !in s.resuming
    case Flush(id) => id in s.resuming
  }

  function Take(s: State, a: Action): State
    requires Enabled(s, a)
  {
    match a
    case Load(id, p) =>
      if s.s then s.(writing := s.writing[id := p]) else s.(downstream := s.downstream + p)
    case Append(id) =>
      var p := s.writing[id];
      var n := Accepted(s.buf, p);
      s.(buf := s.buf + p[..n], dropped := s.dropped + |p| - n, writing := s.writing - {id})
    case Suspend => s.(s := true)
    case Exchange(id) =>
      if s.s then s.(s := false, resuming := s.resuming + {id}) else s
    case Flush(id) =>
      s.(downstream := s.downstream + s.buf, buf := [], dropped := 0, resuming := s.resuming - {id})
  }

  /** The state a run ends in, or None if one of its steps could not be taken. */
  function Run(s: State, run: seq<Action>): Option<State>
    decreases |run|
  {
    if run == [] then Some(s)
    else
      match Run(s, run[..|run| - 1])
      case Some(t) => if Enabled(t, run[|run| - 1]) then Some(Take(t, run[|run| - 1])) else None
      case None => None
  }

  function Final(s: State, run: seq<Action>): State
    requires Run(s, run).Some?
  {
    Run(s, run).value
  }

  /** What a step reports: bytes routed to the buffer, flushed from it, or given up by a flush. */
  datatype Account = Account(routed: nat, flushed: nat, lost: nat)

  function Posting(s: State, a: Action): Account
    requires Enabled(s, a)
  {
    match a
    case Append(id) => Account(|s.writing[id]|, 0, 0)
    case Flush(_) => Account(0, |s.buf|, s.dropped)
    case _ => Account(0, 0, 0)
  }

  function Books(s: State, run: seq<Action>): Account
    requires Run(s, run).Some?
    decreases |run|
  {
    if run == [] then Account(0, 0, 0)
    else
      var b := Books(s, run[..|run| - 1]);
      var c := Posting(Final(s, run[..|run| - 1]), run[|run| - 1]);
      Account(b.routed + c.routed, b.flushed + c.flushed, b.lost + c.lost)
  }

  /** Every byte routed to the buffer has been flushed, is held, or is counted as dropped. */
  lemma {:induction false} RunConserves(run: seq<Action>)
    requires Run(INITIAL, run).Some?
    ensures var t := Final(INITIAL, run); var b := Books(INITIAL, run);
      && b.routed == b.flushed + |t.buf| + b.lost + t.dropped
      && |t.buf| <= MAX
      && (t.dropped > 0 ==> |t.buf| == MAX)
    decreases |run|
  {
    if run != [] {
      RunConserves(run[..|run| - 1]);
    }
  }

  /** The bytes a step moves into the buffer. */
  function Stored(s: State, a: Action): seq<Byte>
    requires Enabled(s, a)
  {
    if a.Append? then s.writing[a.id][..Accepted(s.buf, s.writing[a.id])] else []
  }

  /** All bytes stored in the buffer by a run, in order. */
  function AllStored(s: State, run: seq<Action>): seq<Byte>
    requires Run(s, run).Some?
    decreases |run|
  {
    if run == [] then []
    else AllStored(s, run[..|run| - 1]) + Stored(Final(s, run[..|run| - 1]), run[|run| - 1])
  }

  /** The bytes flushed by a run, in order. */
  function AllFlushed(s: State, run: seq<Action>): seq<Byte>
    requires Run(s, run).Some?
    decreases |run|
  {
    if run == [] then []
    else
      var t := Final(s, run[..|run| - 1]);
      AllFlushed(s, run[..|run| - 1]) + if run[|run| - 1].Flush? then t.buf else []
  }

  /** The buffer is a queue: the bytes stored come out in the order in which they went in. */
  lemma {:induction false} FlushedInOrder(run: seq<Action>)
    requires Run(INITIAL, run).Some?
    ensures AllFlushed(INITIAL, run) + Final(INITIAL, run).buf == AllStored(INITIAL, run)
    decreases |run|
  {
    if run != [] {
      var prev := run[..|run| - 1];
      FlushedInOrder(prev);
      var a := run[|run| - 1];
      var t := Final(INITIAL, prev);
      assert AllStored(INITIAL, run) == AllFlushed(INITIAL, prev) + (t.buf + Stored(t, a));
    }
  }

  /** Not suspended, and no call under way. */
  predicate Idle(s: State) {
    !s.s && s.resuming == {} && s.writing == map[]
  }

  /** A write that loaded s before the suspension ended can be left in the buffer after the flush. */
  lemma LateWriteIsHeld(x: Byte)
    ensures exists run :: Run(INITIAL, run).Some? && Idle(Final(INITIAL, run)) && Final(INITIAL, run).buf == [x]
  {
    var a: seq<Action> := [Suspend];
    var b := a + [Load(0, [x])];
    var c := b + [Exchange(1)];
    var d := c + [Flush(1)];
    var e := d + [Append(0)];
    assert e[..4] == d && d[..3] == c && c[..2] == b && b[..1] == a && a[..0] == [];
    assert Run(INITIAL, a) == Some(INITIAL.(s := true));
    assert Run(INITIAL, b) == Some(INITIAL.(s := true, writing := map[0 := [x]]));
    assert {} + {1} == {1} && {1} - {1} == {} && INITIAL.downstream + INITIAL.buf == [];
    assert map[0 := [x]] - {0} == map[];
    assert Run(INITIAL, c) == Some(INITIAL.(writing := map[0 := [x]], resuming := {1}));
    assert Run(INITIAL, d) == Some(INITIAL.(writing := map[0 := [x]]));
    assert Run(INITIAL, e).Some?;
  }

  /** Every write between its two steps is of no bytes. */
  ghost predicate NoneWriting(s: State) {
    forall id :: id in s.writing ==> s.writing[id] == []
  }

  /** A run to a state where nothing is under way, in which no new suspension begins. */
  predicate Settles(s: State, run: seq<Action>) {
    Run(s, run).Some? && Suspend !in run && Idle(Final(s, run))
  }

  /** If no bytes are between the two steps of a write when a suspension ends, nothing enters the
      buffer before the next one, and it is empty once somebody has flushed it. */
  lemma {:induction false} QuietEnd(s: State, run: seq<Action>)
    requires !s.s && NoneWriting(s) && Run(s, run).Some? && Suspend !in run
    ensures var t := Final(s, run);
      !t.s && NoneWriting(t) && (t.buf == [] || (t.buf == s.buf && s.resuming <= t.resuming))
    ensures AllStored(s, run) == []
    decreases |run|
  {
    if run != [] {
      var prev := run[..|run| - 1];
      QuietEnd(s, prev);
      var a, t := run[|run| - 1], Final(s, prev);
      assert a in run && Run(s, run) == Some(Take(t, a));
      assert a.Append? ==> Stored(t, a) == [] && t.buf + [] == t.buf;
    }
  }

  lemma Extend(s: State, run: seq<Action>, a: Action)
    requires Run(s, run).Some? && Enabled(Final(s, run), a)
    ensures Run(s, run + [a]) == Some(Take(Final(s, run), a))
  {
    assert (run + [a])[..|run|] == run;
  }

  /** Everybody who owes a flush can flush. */
  lemma FlushAll(s: State, run: seq<Action>) returns (more: seq<Action>)
    requires Run(s, run).Some? && Suspend !in run && !Final(s, run).s
    ensures Run(s, more).Some? && Suspend !in more
    ensures var t, u := Final(s, run), Final(s, more);
      !u.s && u.resuming == {} && u.writing == t.writing && u.buf == if t.resuming == {} then t.buf else []
    decreases Final(s, run).resuming
  {
    more := run;
    var t := Final(s, run);
    if t.resuming != {} {
      var id :| id in t.resuming;
      Extend(s, run, Flush(id));
      more := FlushAll(s, run + [Flush(id)]);
    }
  }

  /** Everybody who has loaded s can append, and the buffer keeps what it holds. */
  lemma AppendAll(s: State, run: seq<Action>) returns (more: seq<Action>)
    requires Run(s, run).Some? && Suspend !in run && !Final(s, run).s
    ensures Run(s, more).Some? && Suspend !in more
    ensures var t, u := Final(s, run), Final(s, more);
      !u.s && u.resuming == t.resuming && u.writing == map[] && t.buf <= u.buf
    decreases Final(s, run).writing.Keys
  {
    more := run;
    var t := Final(s, run);
    if id :| id in t.writing {
      Extend(s, run, Append(id));
      more := AppendAll(s, run + [Append(id)]);
    }
  }

  /** Once a suspension has ended, the buffer is sure to be empty when all calls have returned
      exactly if no bytes are between the two steps of a write and what the buffer holds, if
      anything, is going to be flushed. */
  lemma EmptiesIff(s: State)
    requires !s.s
    ensures (forall run :: Settles(s, run) ==> Final(s, run).buf == []) <==>
      NoneWriting(s) && (s.resuming != {} || s.buf == [])
  {
    if NoneWriting(s) && (s.resuming != {} || s.buf == []) {
      forall run | Settles(s, run) ensures Final(s, run).buf == [] {
        QuietEnd(s, run);
      }
    } else {
      var run := HeldRun(s);
      assert Settles(s, run) && Final(s, run).buf != [];
    }
  }

  /** Otherwise some run leaves bytes behind. */
  lemma HeldRun(s: State) returns (run: seq<Action>)
    requires !s.s && !(NoneWriting(s) && (s.resuming != {} || s.buf == []))
    ensures Settles(s, run) && Final(s, run).buf != []
  {
    assert Run(s, []) == Some(s);
    run := FlushAll(s, []);
    var t := Final(s, run);
    if t.buf == [] {
      var id :| id in s.writing && s.writing[id] != [];
      Extend(s, run, Append(id));
      run := run + [Append(id)];
      assert Final(s, run).buf == t.buf + s.writing[id][..Accepted(t.buf, s.writing[id])];
    }
    run := AppendAll(s, run);
  }
}

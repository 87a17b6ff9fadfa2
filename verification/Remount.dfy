/** Remounting the mounts of an unfolded hierarchy with additional flags. */
module Remount {
  import opened Wrappers
  import opened MountEntry
  import opened MountTable
  import opened MountWalk
  import opened MountLookup
  import opened Text
  import opened Unfold
  import opened Collective

  datatype Flag = Rdonly | Nosuid | Nodev | Noexec | Nosymfollow | Noatime | Nodiratime | Relatime

  /** The flag an option names, if it names one. */
  function FlagOf(option: string): Option<Flag> {
    if option == "ro" then Some(Rdonly)
    else if option == "nosuid" then Some(Nosuid)
    else if option == "nodev" then Some(Nodev)
    else if option == "noexec" then Some(Noexec)
    else if option == "nosymfollow" then Some(Nosymfollow)
    else if option == "noatime" then Some(Noatime)
    else if option == "nodiratime" then Some(Nodiratime)
    else if option == "relatime" then Some(Relatime)
    else None
  }

  function NameOf(f: Flag): string {
    match f
    case Rdonly => "ro"
    case Nosuid => "nosuid"
    case Nodev => "nodev"
    case Noexec => "noexec"
    case Nosymfollow => "nosymfollow"
    case Noatime => "noatime"
    case Nodiratime => "nodiratime"
    case Relatime => "relatime"
  }

  ghost predicate Named(options: seq<string>, f: Flag) {
    exists k :: 0 <= k < |options| && FlagOf(options[k]) == Some(f)
  }

  /** Interprets a mount option string: the recognised flags, and the other options in order. */
  method Flags(optstr: string) returns (flags: set<Flag>, unmatched: seq<string>)
    ensures forall f :: f in flags <==> Named(Split(optstr, ','), f)
    ensures forall o :: o in unmatched <==> o in Split(optstr, ',') && FlagOf(o).None? && o != "rw"
  {
    flags, unmatched := {}, [];
    var options := Split(optstr, ',');
    for k := 0 to |options|
      invariant forall f :: f in flags <==> exists j :: 0 <= j < k && FlagOf(options[j]) == Some(f)
      invariant forall o :: o in unmatched <==> o in options[..k] && FlagOf(o).None? && o != "rw"
    {
      var f := FlagOf(options[k]);
      if f.Some? {
        flags := flags + {f.value};
      } else if options[k] != "rw" {
        unmatched := unmatched + [options[k]];
      }
    }
    assert options[..|options|] == options;
  }

  const ORDER: seq<Flag> := [Nosuid, Nodev, Noexec, Noatime, Nodiratime, Relatime, Nosymfollow]

  function Names(flags: set<Flag>, k: nat): seq<string>
    requires k <= |ORDER|
  {
    if k == 0 then [] else Names(flags, k - 1) + if ORDER[k - 1] in flags then [NameOf(ORDER[k - 1])] else []
  }

  /** The options name these flags, and maybe more that are not flags. */
  ghost predicate Shows(optstr: string, flags: set<Flag>) {
    forall f :: Named(Split(optstr, ','), f) <==> f in flags
  }

  /** The option string the kernel prints for a mount with these flags and some more options. */
  function Render(flags: set<Flag>, more: seq<string>): string {
    Join([if Rdonly in flags then "ro" else "rw"] + Names(flags, |ORDER|) + more, ',')
  }

  lemma FlagNames(f: Flag)
    ensures FlagOf(NameOf(f)) == Some(f) && ',' !in NameOf(f)
  {
  }

  lemma {:induction false} NamesMean(flags: set<Flag>, k: nat)
    requires k <= |ORDER|
    ensures forall j :: 0 <= j < |Names(flags, k)| ==> ',' !in Names(flags, k)[j]
    ensures forall f :: Named(Names(flags, k), f) <==> f in flags && f in ORDER[..k]
  {
    if k > 0 {
      var rest := Names(flags, k - 1);
      var last := if ORDER[k - 1] in flags then [NameOf(ORDER[k - 1])] else [];
      NamesMean(flags, k - 1);
      FlagNames(ORDER[k - 1]);
      assert ORDER[..k] == ORDER[..k - 1] + [ORDER[k - 1]];
      forall f ensures Named(Names(flags, k), f) <==> Named(rest, f) || (ORDER[k - 1] in flags && f == ORDER[k - 1]) {
        assert Names(flags, k) == rest + last;
        NamedAppend(rest, last, f);
        assert Named(last, f) <==> last != [] && FlagOf(last[0]) == Some(f);
      }
    }
  }

  lemma NamedAppend(a: seq<string>, b: seq<string>, f: Flag)
    ensures Named(a + b, f) <==> Named(a, f) || Named(b, f)
  {
    if Named(a, f) {
      var k :| 0 <= k < |a| && FlagOf(a[k]) == Some(f);
      assert (a + b)[k] == a[k];
    }
    if Named(b, f) {
      var k :| 0 <= k < |b| && FlagOf(b[k]) == Some(f);
      assert (a + b)[|a| + k] == b[k];
    }
  }

  /** Reading back what the kernel prints yields the flags of the mount, whatever else is printed that
      names none. */
  lemma FlagsOfRender(flags: set<Flag>, more: seq<string>)
    requires forall o :: o in more ==> ',' !in o && FlagOf(o).None?
    ensures Shows(Render(flags, more), flags)
  {
    NamesMean(flags, |ORDER|);
    var first := [if Rdonly in flags then "ro" else "rw"];
    var names := first + Names(flags, |ORDER|);
    SplitJoin(names + more, ',');
    forall f ensures Named(names + more, f) <==> f in flags {
      NamedAppend(names, more, f);
      NamedAppend(first, Names(flags, |ORDER|), f);
      AllOrdered(f);
      assert FlagOf(first[0]) == if Rdonly in flags then Some(Rdonly) else None;
      assert forall k :: 0 <= k < |more| ==> more[k] in more;
    }
  }

  lemma AllOrdered(f: Flag)
    ensures f == Rdonly || f in ORDER[..|ORDER|]
  {
    assert ORDER[..|ORDER|] == ORDER;
    match f
    case Rdonly =>
    case Nosuid => assert ORDER[0] == f;
    case Nodev => assert ORDER[1] == f;
    case Noexec => assert ORDER[2] == f;
    case Noatime => assert ORDER[3] == f;
    case Nodiratime => assert ORDER[4] == f;
    case Relatime => assert ORDER[5] == f;
    case Nosymfollow => assert ORDER[6] == f;
  }

  datatype Errno = Done | Eacces | Failed | NoMount

  /** The mounts of the kernel by index, as a process whose root is on the mount start sees them, their
      flags, and the mount calls made so far. */
  class Kernel {
    const ms: seq<Mount>
    const start: nat
    var flags: seq<set<Flag>>
    var calls: seq<(string, set<Flag>)>
    const outcome: nat -> Errno

    predicate Valid()
      reads this
    {
      start < |ms| && |flags| == |ms|
    }

    constructor (ms: seq<Mount>, start: nat, flags: seq<set<Flag>>, outcome: nat -> Errno)
      requires start < |ms| && |flags| == |ms|
      ensures Valid() && this.ms == ms && this.start == start && this.flags == flags && this.outcome == outcome
      ensures calls == []
    {
      this.ms, this.start, this.flags, this.calls, this.outcome := ms, start, flags, [], outcome;
    }

    /** A bind remount: the mount the path leads to gets exactly the given flags, or the call fails
        without effect. */
    method Mount(path: string, mf: set<Flag>) returns (e: Errno)
      requires Valid()
      modifies this
      ensures Valid() && calls == old(calls) + [(path, mf)]
      ensures var t := Top(ms, start, path);
        && e == (if t.Some? then outcome(|old(calls)|) else Failed)
        && flags == if t.Some? && e == Done then old(flags)[t.value := mf] else old(flags)
    {
      var t := Top(ms, start, path);
      e := if t.Some? then outcome(|calls|) else Failed;
      calls := calls + [(path, mf)];
      if t.Some? && e == Done {
        flags := flags[t.value := mf];
      }
    }
  }

  /** The option strings name the flags of the mounts. */
  ghost predicate IsSnapshot(entries: seq<MountInfoEntry>, flags: seq<set<Flag>>) {
    |entries| == |flags| && forall i :: 0 <= i < |flags| ==> Shows(entries[i].vfsOptstr, flags[i])
  }

  /** Remounts one mount, unless its options already have the flags; had is what they name. */
  method RemountWithFlags(k: Kernel, n: MountInfoNode, mf: set<Flag>, ghost had: set<Flag>) returns (e: Errno)
    requires k.Valid() && Shows(n.entry.vfsOptstr, had)
    modifies k
    ensures k.Valid()
    ensures Called(k, n.clean, mf, had, e, old(k.calls), old(k.flags), k.calls, k.flags)
  {
    var kf, unmatched := Flags(n.entry.vfsOptstr);
    assert kf == had;
    e := Done;
    if !(mf <= kf) {
      e := k.Mount(n.clean, kf + mf);
    }
  }

  /** The flags a remount sets. */
  function Wanted(flags: set<Flag>): set<Flag> {
    {Nosuid} + flags * {Nodev, Rdonly}
  }

  function Without(w: seq<nat>, r: nat): (o: seq<nat>)
    ensures forall x :: x in o <==> x in w && x != r
  {
    if w == [] then []
    else Without(w[..|w| - 1], r) + if w[|w| - 1] == r then [] else [w[|w| - 1]]
  }

  /** The entries a remount concerns, in order: the root, then whatever else the walk yields. */
  function Order(r: nat, w: seq<nat>): seq<nat> {
    [r] + Without(w, r)
  }

  /** What the walk yields, if the remount is recursive. */
  ghost function Yielded(ms: seq<Mount>, target: string, r: nat, recursive: bool): seq<nat>
    requires r < |ms| && Walk(ms, target, r, |ms|).Some?
  {
    if recursive then Walk(ms, target, r, |ms|).value else []
  }

  /** The flags once the entries in order have been remounted without a failing call; None if the
      path of one of them does not lead to a mount. */
  function Applied(ms: seq<Mount>, start: nat, before: seq<set<Flag>>, order: seq<nat>, mf: set<Flag>)
    : (after: Option<seq<set<Flag>>>)
    requires start < |ms| && |before| == |ms|
    ensures after.Some? ==> |after.value| == |ms|
  {
    if order == [] then Some(before)
    else
      var i := order[|order| - 1];
      match Applied(ms, start, before, order[..|order| - 1], mf)
      case None => None
      case Some(now) =>
        if i >= |ms| then None
        else if mf <= before[i] then Some(now)
        else
          match Top(ms, start, ms[i].clean)
          case None => None
          case Some(t) => Some(now[t := before[i] + mf])
  }

  /** Some of the mounts in done have been given the flags, and nothing else has changed. */
  ghost predicate Within(before: seq<set<Flag>>, after: seq<set<Flag>>, done: seq<nat>, mf: set<Flag>) {
    |after| == |before| &&
    forall i: nat :: i < |before| ==> after[i] == before[i] || (i in done && after[i] == before[i] + mf)
  }

  /** Exactly the mounts in done have been given the flags: each of them has all of them, no mount has
      lost a flag, and the others are untouched. */
  ghost predicate Exactly(before: seq<set<Flag>>, after: seq<set<Flag>>, done: seq<nat>, mf: set<Flag>) {
    |after| == |before| &&
    forall i: nat :: i < |before| ==> after[i] == if i in done then before[i] + mf else before[i]
  }

  ghost predicate AllDone(outcome: nat -> Errno, from: nat) {
    forall c: nat :: from <= c ==> outcome(c) == Done
  }

  ghost predicate AllHave(flags: seq<set<Flag>>, order: seq<nat>, mf: set<Flag>) {
    forall i: nat :: i in order && i < |flags| ==> mf <= flags[i]
  }

  /** The paths of these entries lead to their own mounts. */
  ghost predicate Lead(ms: seq<Mount>, start: nat, order: seq<nat>)
    requires start < |ms|
  {
    forall i :: i in order ==> i < |ms| && Top(ms, start, ms[i].clean) == Some(i)
  }

  ghost predicate NoRepeat(order: seq<nat>) {
    forall a, b :: 0 <= a < b < |order| ==> order[a] != order[b]
  }

  lemma AppliedStep(ms: seq<Mount>, start: nat, before: seq<set<Flag>>, order: seq<nat>, x: nat, mf: set<Flag>)
    requires start < |ms| && |before| == |ms| && x < |ms|
    ensures var now, after := Applied(ms, start, before, order, mf), Applied(ms, start, before, order + [x], mf);
      if now.None? then after.None?
      else if mf <= before[x] then after == now
      else if Top(ms, start, ms[x].clean).None? then after.None?
      else after == Some(now.value[Top(ms, start, ms[x].clean).value := before[x] + mf])
  {
    assert (order + [x])[..|order|] == order;
  }

  lemma WithinStep(before: seq<set<Flag>>, now: seq<set<Flag>>, done: seq<nat>, x: nat, mf: set<Flag>)
    requires Within(before, now, done, mf) && x < |before|
    ensures Within(before, now, done + [x], mf) && Within(before, now[x := before[x] + mf], done + [x], mf)
  {
  }

  lemma WithoutStep(w: seq<nat>, m: nat, r: nat)
    requires m < |w|
    ensures Order(r, w[..m + 1]) == if w[m] == r then Order(r, w[..m]) else Order(r, w[..m]) + [w[m]]
  {
    assert w[..m + 1][..m] == w[..m];
  }

  lemma {:induction false} AppliedFails(ms: seq<Mount>, start: nat, before: seq<set<Flag>>, r: nat, w: seq<nat>,
                                        m: nat, mf: set<Flag>)
    requires start < |ms| && |before| == |ms| && r < |ms| && (forall i :: i in w ==> i < |ms|) && m <= |w|
    requires Applied(ms, start, before, Order(r, w[..m]), mf).None?
    ensures Applied(ms, start, before, Order(r, w), mf).None?
    decreases |w| - m
  {
    if m < |w| {
      WithoutStep(w, m, r);
      assert w[m] in w;
      AppliedStep(ms, start, before, Order(r, w[..m]), w[m], mf);
      AppliedFails(ms, start, before, r, w, m + 1, mf);
    } else {
      assert w[..m] == w;
    }
  }

  /** The state of a remount after the root and the first m entries of the walk: it has made these
      calls, beginning with the first of them, and the mounts have these flags. */
  ghost predicate Progress(k: Kernel, first: seq<(string, set<Flag>)>, before: seq<set<Flag>>, r: nat, w: seq<nat>,
                           m: nat, mf: set<Flag>, calls: seq<(string, set<Flag>)>, flags: seq<set<Flag>>)
  {
    && k.start < |k.ms| && |before| == |flags| == |k.ms| && r < |k.ms| && m <= |w|
    && (forall i :: i in w ==> i < |k.ms|)
    && first <= calls
    && (AllDone(k.outcome, |first|) ==> Applied(k.ms, k.start, before, Order(r, w[..m]), mf) == Some(flags))
    && (Lead(k.ms, k.start, Order(r, w)) ==> Within(before, flags, Order(r, w[..m]), mf))
    && (AllHave(before, Order(r, w), mf) ==> calls == first)
  }

  /** What a remount promises when it ends with e. */
  ghost predicate Promised(k: Kernel, first: seq<(string, set<Flag>)>, before: seq<set<Flag>>, r: nat, w: seq<nat>,
                           mf: set<Flag>, e: Errno, calls: seq<(string, set<Flag>)>, flags: seq<set<Flag>>)
  {
    && k.start < |k.ms| && |before| == |flags| == |k.ms| && r < |k.ms| && (forall i :: i in w ==> i < |k.ms|)
    && (AllDone(k.outcome, |first|) ==>
          match Applied(k.ms, k.start, before, Order(r, w), mf)
          case Some(after) => e == Done && flags == after
          case None => e == Failed)
    && (Lead(k.ms, k.start, Order(r, w)) ==> Within(before, flags, Order(r, w), mf))
    && (AllHave(before, Order(r, w), mf) ==> calls == first && e == Done)
  }

  /** The effect of a call for an entry that has these flags, with the result e. */
  predicate Called(k: Kernel, path: string, mf: set<Flag>, had: set<Flag>, e: Errno,
                   calls: seq<(string, set<Flag>)>, flags: seq<set<Flag>>,
                   calls': seq<(string, set<Flag>)>, flags': seq<set<Flag>>)
    requires k.start < |k.ms| && |flags| == |k.ms|
  {
    if mf <= had then calls' == calls && flags' == flags && e == Done
    else
      var t := Top(k.ms, k.start, path);
      && calls' == calls + [(path, had + mf)]
      && e == (if t.Some? then k.outcome(|calls|) else Failed)
      && flags' == if t.Some? && e == Done then flags[t.value := had + mf] else flags
  }

  /** A call that did not fail takes a remount one entry further. */
  lemma NextProgress(k: Kernel, first: seq<(string, set<Flag>)>, before: seq<set<Flag>>, r: nat, w: seq<nat>,
                     m: nat, mf: set<Flag>, calls: seq<(string, set<Flag>)>, flags: seq<set<Flag>>, e: Errno,
                     calls': seq<(string, set<Flag>)>, flags': seq<set<Flag>>)
    requires Progress(k, first, before, r, w, m, mf, calls, flags) && m < |w| && w[m] != r && w[m] < |k.ms|
    requires Called(k, k.ms[w[m]].clean, mf, before[w[m]], e, calls, flags, calls', flags')
    requires e == Done || e == Eacces
    ensures Progress(k, first, before, r, w, m + 1, mf, calls', flags')
  {
    hide Top, Without;
    assert w[m] in w && w[m] in Order(r, w);
    WithoutStep(w, m, r);
    AppliedStep(k.ms, k.start, before, Order(r, w[..m]), w[m], mf);
    hide Applied;
    if Lead(k.ms, k.start, Order(r, w)) {
      WithinStep(before, flags, Order(r, w[..m]), w[m], mf);
    }
    hide Order, Within;
  }

  /** A call that failed ends it. */
  lemma FailureEnds(k: Kernel, first: seq<(string, set<Flag>)>, before: seq<set<Flag>>, r: nat, w: seq<nat>,
                    m: nat, mf: set<Flag>, calls: seq<(string, set<Flag>)>, flags: seq<set<Flag>>, e: Errno,
                    calls': seq<(string, set<Flag>)>, flags': seq<set<Flag>>)
    requires Progress(k, first, before, r, w, m, mf, calls, flags) && m < |w| && w[m] != r && w[m] < |k.ms|
    requires Called(k, k.ms[w[m]].clean, mf, before[w[m]], e, calls, flags, calls', flags')
    requires e == Failed || e == NoMount
    ensures Promised(k, first, before, r, w, mf, e, calls', flags')
  {
    hide Top, Without, Lead;
    assert w[m] in w && w[m] in Order(r, w);
    WithoutStep(w, m, r);
    AppliedStep(k.ms, k.start, before, Order(r, w[..m]), w[m], mf);
    hide Applied;
    if Applied(k.ms, k.start, before, Order(r, w[..m + 1]), mf).None? {
      AppliedFails(k.ms, k.start, before, r, w, m + 1, mf);
    }
    WithinMore(before, flags, r, w, m, mf);
    hide Order, Within;
  }

  /** The root comes first. */
  lemma RootFirst(k: Kernel, before: seq<set<Flag>>, r: nat, w: seq<nat>, mf: set<Flag>, e: Errno,
                  calls: seq<(string, set<Flag>)>, calls': seq<(string, set<Flag>)>, flags': seq<set<Flag>>)
    requires k.start < |k.ms| && |before| == |k.ms| && r < |k.ms| && forall i :: i in w ==> i < |k.ms|
    requires Called(k, k.ms[r].clean, mf, before[r], e, calls, before, calls', flags')
    ensures if e == Done then Progress(k, calls, before, r, w, 0, mf, calls', flags')
            else Promised(k, calls, before, r, w, mf, e, calls', flags')
  {
    RootApplied(k.ms, k.start, before, r, w, mf);
    hide Top, Applied, Without;
    WithinStep(before, before, [], r, mf);
    if Applied(k.ms, k.start, before, Order(r, w[..0]), mf).None? {
      AppliedFails(k.ms, k.start, before, r, w, 0, mf);
    }
    WithinMore(before, before, r, w, 0, mf);
    assert [] + [r] == [r];
    hide Order, Within;
  }

  lemma RootApplied(ms: seq<Mount>, start: nat, before: seq<set<Flag>>, r: nat, w: seq<nat>, mf: set<Flag>)
    requires start < |ms| && |before| == |ms| && r < |ms|
    ensures Order(r, w[..0]) == [r] && r in Order(r, w)
    ensures var after := Applied(ms, start, before, [r], mf);
      if mf <= before[r] then after == Some(before)
      else if Top(ms, start, ms[r].clean).None? then after.None?
      else after == Some(before[Top(ms, start, ms[r].clean).value := before[r] + mf])
  {
    assert w[..0] == [] && Without([], r) == [] && [r] + [] == [r];
    AppliedStep(ms, start, before, [], r, mf);
    assert [] + [r] == [r];
  }

  lemma WithinMore(before: seq<set<Flag>>, now: seq<set<Flag>>, r: nat, w: seq<nat>, m: nat, mf: set<Flag>)
    requires m <= |w|
    ensures Within(before, now, Order(r, w[..m]), mf) ==> Within(before, now, Order(r, w), mf)
  {
    assert forall x :: x in w[..m] ==> x in w;
  }

  /** Remounts the root and then the others; a mount that may not be changed is passed over, any other
      failure ends the remount. */
  method RemountNodes(k: Kernel, root: MountInfoNode, others: seq<MountInfoNode>, mf: set<Flag>,
                      ghost nodes: seq<MountInfoNode>, ghost before: seq<set<Flag>>, ghost r: nat, ghost w: seq<nat>)
    returns (e: Errno)
    requires k.Valid() && before == k.flags && Represents(nodes, k.ms) && r < |nodes| && root == nodes[r]
    requires forall i :: 0 <= i < |nodes| ==> Shows(nodes[i].entry.vfsOptstr, before[i])
    requires |others| == |w| && forall m :: 0 <= m < |w| ==> w[m] < |nodes| && others[m] == nodes[w[m]]
    modifies k
    ensures k.Valid() && Promised(k, old(k.calls), before, r, w, mf, e, k.calls, k.flags)
  {
    hide Progress, Promised, Top, Shows, Order;
    ghost var first := k.calls;
    e := RemountWithFlags(k, root, mf, before[r]);
    RootFirst(k, before, r, w, mf, e, first, k.calls, k.flags);
    if e != Done {
      return;
    }
    for m := 0 to |others|
      invariant k.Valid() && Progress(k, first, before, r, w, m, mf, k.calls, k.flags)
    {
      ghost var calls, flags := k.calls, k.flags;
      if others[m] != root {
        e := RemountWithFlags(k, others[m], mf, before[w[m]]);
        if e != Done && e != Eacces {
          FailureEnds(k, first, before, r, w, m, mf, calls, flags, e, k.calls, k.flags);
          return;
        }
        NextProgress(k, first, before, r, w, m, mf, calls, flags, e, k.calls, k.flags);
      } else {
        SkipRoot(k, first, before, r, w, m, mf, calls, flags);
      }
    }
    e := Done;
    AllVisited(k, first, before, r, w, mf, k.calls, k.flags);
  }

  lemma SkipRoot(k: Kernel, first: seq<(string, set<Flag>)>, before: seq<set<Flag>>, r: nat, w: seq<nat>,
                 m: nat, mf: set<Flag>, calls: seq<(string, set<Flag>)>, flags: seq<set<Flag>>)
    requires Progress(k, first, before, r, w, m, mf, calls, flags) && m < |w| && w[m] == r
    ensures Progress(k, first, before, r, w, m + 1, mf, calls, flags)
  {
    WithoutStep(w, m, r);
    hide Order, Within, Applied;
  }

  lemma AllVisited(k: Kernel, first: seq<(string, set<Flag>)>, before: seq<set<Flag>>, r: nat, w: seq<nat>,
                   mf: set<Flag>, calls: seq<(string, set<Flag>)>, flags: seq<set<Flag>>)
    requires Progress(k, first, before, r, w, |w|, mf, calls, flags)
    ensures Promised(k, first, before, r, w, mf, Done, calls, flags)
  {
    assert w[..|w|] == w;
    hide Order, Within, Applied;
  }

  /** remount: unfolds the table at the target and remounts its root and, if asked, what the walk
      from it yields. The table is the one of the kernel, and the walk has to end. */
  method Remount(k: Kernel, entries: seq<MountInfoEntry>, clean: string -> string, target: string,
                 recursive: bool, flags: set<Flag>) returns (e: Errno)
    requires k.Valid() && k.ms == Table(entries, clean) && IsSnapshot(entries, k.flags)
    requires var r := LastAt(k.ms, clean(target)); r.Some? ==> !OnCycle(k.ms, clean(target), r.value)
    modifies k
    ensures k.Valid()
    ensures LastAt(k.ms, clean(target)).None? ==> e == NoMount && k.calls == old(k.calls) && k.flags == old(k.flags)
    ensures var r := LastAt(k.ms, clean(target));
      r.Some? ==>
        && Walk(k.ms, clean(target), r.value, |k.ms|).Some?
        && Promised(k, old(k.calls), old(k.flags), r.value,
                    Yielded(k.ms, clean(target), r.value, recursive), Wanted(flags), e, k.calls, k.flags)
  {
    var root, nodes := Unfold.Unfold(entries, clean, target);
    if root == null {
      return NoMount;
    }
    ghost var t := clean(target);
    ghost var r := LastAt(k.ms, t).value;
    WalkEndsIff(k.ms, t, r);
    WalkIndices(k.ms, t, r, |k.ms|);
    ghost var w: seq<nat> := Yielded(k.ms, t, r, recursive);
    var others: seq<MountInfoNode> := [];
    if recursive {
      others := CollectAll(root, nodes, k.ms, t, r);
    }
    assert forall m :: 0 <= m < |w| ==> w[m] < |nodes|;
    e := RemountNodes(k, root, others, Wanted(flags), nodes, k.flags, r, w);
  }

  /** What the iterator yields to a consumer that takes everything. */
  method CollectAll(root: MountInfoNode, nodes: seq<MountInfoNode>, ghost ms: seq<Mount>, ghost t: string, ghost r: nat)
    returns (got: seq<MountInfoNode>)
    requires Unfolded(nodes, ms, t) && r < |ms| && |nodes| == |ms| && root == nodes[r] && Walk(ms, t, r, |ms|).Some?
    ensures var w := Walk(ms, t, r, |ms|).value;
      |got| == |w| && forall m :: 0 <= m < |w| ==> w[m] < |nodes| && got[m] == nodes[w[m]]
  {
    var consumer := new Consumer(_ => true);
    var more := Visit(root, consumer, nodes, ms, t, r, |ms|);
    got := consumer.got;
    WalkIndices(ms, t, r, |ms|);
    TakenMeans(consumer.answers, 0, |Walk(ms, t, r, |ms|).value|);
  }

  /** Where every path leads to its own mount, a remount without failing calls does exactly what is
      asked. */
  lemma {:induction false} AppliedExactly(ms: seq<Mount>, start: nat, before: seq<set<Flag>>, order: seq<nat>,
                                          mf: set<Flag>)
    requires start < |ms| && |before| == |ms| && Lead(ms, start, order) && NoRepeat(order)
    ensures Applied(ms, start, before, order, mf).Some?
    ensures Exactly(before, Applied(ms, start, before, order, mf).value, order, mf)
  {
    if order != [] {
      var init, x := order[..|order| - 1], order[|order| - 1];
      assert order == init + [x];
      AppliedExactly(ms, start, before, init, mf);
      assert x in order && x !in init;
      hide Top;
      assert mf <= before[x] ==> before[x] + mf == before[x];
    }
  }

  lemma {:induction false} WithoutOnce(w: seq<nat>, r: nat)
    requires NoRepeat(w)
    ensures NoRepeat(Without(w, r))
  {
    if w != [] {
      WithoutOnce(w[..|w| - 1], r);
      assert w[|w| - 1] !in w[..|w| - 1];
    }
  }

  lemma OrderOnce(ms: seq<Mount>, target: string, r: nat, recursive: bool)
    requires r < |ms| && Walk(ms, target, r, |ms|).Some?
    ensures NoRepeat(Order(r, Yielded(ms, target, r, recursive)))
    ensures forall i :: i in Order(r, Yielded(ms, target, r, recursive)) ==> i < |ms|
  {
    var w := Yielded(ms, target, r, recursive);
    WalkOnce(ms, target, r, |ms|);
    WalkIndices(ms, target, r, |ms|);
    WithoutOnce(w, r);
    var o := Without(w, r);
    assert forall b :: 0 <= b < |o| ==> o[b] in o;
  }

  /** If the path of the root leads to the root, all paths concerned lead to their own mounts. */
  lemma RootLeads(ms: seq<Mount>, start: nat, target: string, r: nat, recursive: bool)
    requires Nested(ms) && start < |ms| && r < |ms| && ms[r].clean == target && Walk(ms, target, r, |ms|).Some?
    requires Top(ms, start, target) == Some(r)
    ensures Lead(ms, start, Order(r, Yielded(ms, target, r, recursive)))
  {
    var w := Yielded(ms, target, r, recursive);
    forall i | i in Order(r, w) ensures i < |ms| && Top(ms, start, ms[i].clean) == Some(i) {
      if i != r {
        TopOfVisible(ms, start, target, r, i);
      }
    }
  }

  /** Whatever flags the mounts have, a remount without failing calls gives the wanted ones to exactly
      the root and the mounts the walk yields, and takes none from any. */
  ghost predicate AlwaysExact(ms: seq<Mount>, start: nat, target: string, r: nat, recursive: bool, mf: set<Flag>)
    requires start < |ms| && r < |ms| && Walk(ms, target, r, |ms|).Some?
  {
    var order := Order(r, Yielded(ms, target, r, recursive));
    forall before: seq<set<Flag>> | |before| == |ms| ::
      var after := Applied(ms, start, before, order, mf);
      after.Some? && Exactly(before, after.value, order, mf)
  }

  /** That is so exactly if nothing covers the root and a lookup of the target comes by it. */
  lemma RemountExactIff(ms: seq<Mount>, start: nat, target: string, r: nat, recursive: bool, flags: set<Flag>)
    requires Nested(ms) && start < |ms| && r < |ms| && ms[r].clean == target && Walk(ms, target, r, |ms|).Some?
    ensures AlwaysExact(ms, start, target, r, recursive, Wanted(flags)) <==>
      !Covered(ms, target, r, |ms|) && exists n :: Passes(ms, start, target, r, n)
  {
    OrderOnce(ms, target, r, recursive);
    TopIsRootIff(ms, start, target, r);
    var order, mf := Order(r, Yielded(ms, target, r, recursive)), Wanted(flags);
    if Top(ms, start, target) == Some(r) {
      RootLeads(ms, start, target, r, recursive);
      forall before: seq<set<Flag>> | |before| == |ms|
        ensures Applied(ms, start, before, order, mf).Some?
        ensures Exactly(before, Applied(ms, start, before, order, mf).value, order, mf)
      {
        AppliedExactly(ms, start, before, order, mf);
      }
    } else {
      RemountInexact(ms, start, target, r, recursive, mf);
    }
  }

  /** Only the root lacks the flags, and the others have one that is not wanted. */
  function Telltale(ms: seq<Mount>, r: nat, mf: set<Flag>): (before: seq<set<Flag>>)
    ensures |before| == |ms|
  {
    seq(|ms|, i requires 0 <= i < |ms| => if i == r then {} else mf + {Noexec})
  }

  lemma RemountInexact(ms: seq<Mount>, start: nat, target: string, r: nat, recursive: bool, mf: set<Flag>)
    requires start < |ms| && r < |ms| && ms[r].clean == target && Walk(ms, target, r, |ms|).Some?
    requires forall i :: i in Order(r, Yielded(ms, target, r, recursive)) ==> i < |ms|
    requires Top(ms, start, target) != Some(r) && Nosuid in mf && Noexec !in mf
    ensures !AlwaysExact(ms, start, target, r, recursive, mf)
  {
    var before, w := Telltale(ms, r, mf), Yielded(ms, target, r, recursive);
    OnlyRootCalls(ms, start, before, r, w, |w|, mf);
    assert w[..|w|] == w;
    var after := Applied(ms, start, before, Order(r, w), mf);
    if after.Some? {
      var t := Top(ms, start, target).value;
      assert after.value[t] == mf && before[t] == mf + {Noexec};
      assert Noexec in before[t] && Noexec !in after.value[t];
      assert !Exactly(before, after.value, Order(r, w), mf);
    }
  }

  lemma {:induction false} OnlyRootCalls(ms: seq<Mount>, start: nat, before: seq<set<Flag>>, r: nat, w: seq<nat>,
                                         m: nat, mf: set<Flag>)
    requires start < |ms| && |before| == |ms| && r < |ms| && m <= |w| && forall i :: i in Order(r, w) ==> i < |ms|
    requires before[r] == {} && mf != {} && forall i: nat :: i < |ms| && i != r ==> mf <= before[i]
    ensures Applied(ms, start, before, Order(r, w[..m]), mf) ==
      match Top(ms, start, ms[r].clean)
      case None => None
      case Some(t) => Some(before[t := mf])
  {
    hide Top;
    if m == 0 {
      RootApplied(ms, start, before, r, w, mf);
      assert {} + mf == mf;
    } else {
      assert w[m - 1] in w && (w[m - 1] != r ==> w[m - 1] in Order(r, w));
      hide Applied, Order, Without;
      OnlyRootCalls(ms, start, before, r, w, m - 1, mf);
      WithoutStep(w, m - 1, r);
      if w[m - 1] != r {
        AppliedStep(ms, start, before, Order(r, w[..m - 1]), w[m - 1], mf);
      }
    }
  }

  /** A mount is tucked in between the mount 50 and what it was on: the mount 40 now covers 50. */
  const TUCKED := [Mount(40, 50, "/a"), Mount(50, 30, "/a")]

  lemma TuckedParents()
    ensures Last(TUCKED, 50) == Some(1) && Last(TUCKED, 30) == None
    ensures forall m: nat, c: nat :: On(TUCKED, m, c) <==> m == 1 && c == 0
  {
    assert TUCKED[..1] == [TUCKED[0]] && [TUCKED[0]][..0] == [];
  }

  lemma TuckedCrossings()
    ensures Nested(TUCKED) && Top(TUCKED, 1, "/a") == Some(0)
  {
    TuckedParents();
    hide Last, On;
    assert InTheWay(TUCKED, 1, "/a", 0) && !InTheWay(TUCKED, 1, "/a", 1);
    assert !InTheWay(TUCKED, 0, "/a", 0) && !InTheWay(TUCKED, 0, "/a", 1);
    assert Crossing(TUCKED, 1, "/a", 0) == None && Crossing(TUCKED, 1, "/a", 1) == Some(0);
    assert Crossing(TUCKED, 1, "/a", 2) == Some(0);
    assert Crossing(TUCKED, 0, "/a", 0) == None && Crossing(TUCKED, 0, "/a", 1) == None;
    assert Crossing(TUCKED, 0, "/a", 2) == None;
    assert Lookup(TUCKED, 0, "/a", 1) == Some(0) && Lookup(TUCKED, 1, "/a", 2) == Some(0);
  }

  lemma TuckedUnfolds()
    ensures LastAt(TUCKED, "/a") == Some(1) && Covered(TUCKED, "/a", 1, 2) && 0 in Kids(TUCKED, "/a", 1)
  {
    TuckedParents();
    assert Candidate(TUCKED, "/a", 1, 0) && !Candidate(TUCKED, "/a", 1, 1);
    hide Last, On, Candidate;
    assert Minimal(TUCKED, "/a", 1, 2, 0);
    assert 0 in Children(TUCKED, "/a", 1, 2);
  }

  /** The root of that table is covered: what a remount at its path sets are the flags of the root, on
      the mount tucked over it, which loses the one that it had; and the root is left as it was. */
  lemma TuckedMountLosesFlag()
    ensures Nested(TUCKED) && Top(TUCKED, 1, "/a") == Some(0)
    ensures LastAt(TUCKED, "/a") == Some(1) && Covered(TUCKED, "/a", 1, 2) && 0 in Kids(TUCKED, "/a", 1)
    ensures Applied(TUCKED, 1, [{Nosuid, Noexec}, {}], Order(1, [0]), {Nosuid}) == Some([{Nosuid}, {}])
  {
    TuckedCrossings();
    TuckedUnfolds();
    hide Nested, Top, Covered, Kids, LastAt, Applied;
    var before: seq<set<Flag>> := [{Nosuid, Noexec}, {}];
    assert [0][..0] == [] && Without([], 1) == [] && Without([0], 1) == [0] && Order(1, [0]) == [1] + [0];
    RootApplied(TUCKED, 1, before, 1, [0], {Nosuid});
    AppliedStep(TUCKED, 1, before, [1], 0, {Nosuid});
    assert {} + {Nosuid} == {Nosuid} && before[0 := {Nosuid}] == [{Nosuid}, {}];
  }

  /** The table once the flags have changed, where options gives the options of a mount. */
  function Refreshed(entries: seq<MountInfoEntry>, flags: seq<set<Flag>>, options: (nat, set<Flag>) -> string)
    : (r: seq<MountInfoEntry>)
    requires |entries| == |flags|
    ensures |r| == |entries|
  {
    seq(|entries|, i requires 0 <= i < |entries| => entries[i].(vfsOptstr := options(i, flags[i])))
  }

  /** After a remount without failing calls, where the target leads to the root, the same remount makes
      no call at all. */
  method RemountAgain(k: Kernel, entries: seq<MountInfoEntry>, clean: string -> string, target: string,
                      recursive: bool, flags: set<Flag>, options: (nat, set<Flag>) -> string)
    returns (between: nat, e: Errno)
    requires k.Valid() && k.ms == Table(entries, clean) && IsSnapshot(entries, k.flags)
    requires Nested(k.ms) && AllDone(k.outcome, |k.calls|) && forall i, fs :: Shows(options(i, fs), fs)
    requires var r := LastAt(k.ms, clean(target));
      r.Some? && !OnCycle(k.ms, clean(target), r.value) && Top(k.ms, k.start, clean(target)) == r
    modifies k
    ensures e == Done && |k.calls| == between
    ensures var r := LastAt(k.ms, clean(target)).value;
      && Walk(k.ms, clean(target), r, |k.ms|).Some?
      && Exactly(old(k.flags), k.flags, Order(r, Yielded(k.ms, clean(target), r, recursive)), Wanted(flags))
  {
    ghost var t, before := clean(target), k.flags;
    ghost var r := LastAt(k.ms, t).value;
    WalkEndsIff(k.ms, t, r);
    ghost var order := Order(r, Yielded(k.ms, t, r, recursive));
    OrderOnce(k.ms, t, r, recursive);
    RootLeads(k.ms, k.start, t, r, recursive);
    AppliedExactly(k.ms, k.start, before, order, Wanted(flags));
    e := Remount(k, entries, clean, target, recursive, flags);
    between := |k.calls|;
    ghost var after := k.flags;
    var again := Refreshed(entries, k.flags, options);
    assert Table(again, clean) == Table(entries, clean);
    assert AllHave(after, order, Wanted(flags));
    e := Remount(k, again, clean, target, recursive, flags);
    HaveIsSame(after, k.flags, order, Wanted(flags));
  }

  lemma HaveIsSame(before: seq<set<Flag>>, after: seq<set<Flag>>, done: seq<nat>, mf: set<Flag>)
    requires Within(before, after, done, mf) && AllHave(before, done, mf)
    ensures after == before
  {
    forall i: nat | i < |before| ensures after[i] == before[i] {
      if i in done {
        assert before[i] + mf == before[i];
      }
    }
  }
}

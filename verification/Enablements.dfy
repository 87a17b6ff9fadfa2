/** The enablement byte, the criteria built from it, and the criteria a cleanup computes. */
module Enablements {
  import opened Wrappers

  type Bits = bv8

  const WAYLAND: Bits := 1
  const X11: Bits := 2
  const DBUS: Bits := 4
  const PULSE: Bits := 8
  const USER: Bits := 16
  const PROCESS: Bits := 32
  const MASK: Bits := WAYLAND | X11 | DBUS | PULSE

  /** One of the four host services an instance header may name. */
  predicate IsService(b: Bits) {
    b == WAYLAND || b == X11 || b == DBUS || b == PULSE
  }

  predicate IsScope(b: Bits) {
    IsService(b) || b == USER || b == PROCESS
  }

  /** Whether a criteria selects an operation of type t; None is the nil criteria. */
  predicate HasType(ec: Option<Bits>, t: Bits) {
    match ec
    case None => t != USER
    case Some(bits) => bits & t != 0
  }

  predicate Holds(header: Option<Bits>, b: Bits) {
    header.Some? && header.value & b != 0
  }

  /** Whether any header that loaded holds the bit b. */
  ghost predicate SomeHolds(headers: seq<Option<Bits>>, b: Bits) {
    exists k :: 0 <= k < |headers| && Holds(headers[k], b)
  }

  ghost predicate SomeLoaded(headers: seq<Option<Bits>>) {
    exists k :: 0 <= k < |headers| && headers[k].Some?
  }

  /** The bits of all headers that loaded, and how many loaded. */
  function Accumulate(headers: seq<Option<Bits>>): (Bits, nat) {
    if headers == [] then (0 as Bits, 0)
    else
      var (rt, n) := Accumulate(headers[..|headers| - 1]);
      match headers[|headers| - 1]
      case None => (rt, n)
      case Some(et) => (rt | et, n + 1)
  }

  function Criteria(headers: seq<Option<Bits>>): Bits {
    var (rt, n) := Accumulate(headers);
    PROCESS | (if n == 0 then USER else 0) | (rt ^ MASK)
  }

  lemma SomeLast(headers: seq<Option<Bits>>, b: Bits)
    requires headers != []
    ensures var init, last := headers[..|headers| - 1], headers[|headers| - 1];
      && (SomeHolds(headers, b) <==> SomeHolds(init, b) || Holds(last, b))
      && (SomeLoaded(headers) <==> SomeLoaded(init) || last.Some?)
  {
    var init := headers[..|headers| - 1];
    assert headers == init + [headers[|headers| - 1]];
    if SomeHolds(init, b) {
      var k :| 0 <= k < |init| && Holds(init[k], b);
      assert Holds(headers[k], b);
    }
    if SomeLoaded(init) {
      var k :| 0 <= k < |init| && init[k].Some?;
      assert headers[k].Some?;
    }
  }

  lemma {:induction false} AccumulateMeans(headers: seq<Option<Bits>>, b: Bits)
    ensures Accumulate(headers).0 & b != 0 <==> SomeHolds(headers, b)
    ensures Accumulate(headers).1 > 0 <==> SomeLoaded(headers)
  {
    if headers != [] {
      var init, last := headers[..|headers| - 1], headers[|headers| - 1];
      AccumulateMeans(init, b);
      SomeLast(headers, b);
      if last.Some? {
        OrBit(Accumulate(init).0, last.value, b);
      }
    }
  }

  lemma OrBit(x: Bits, y: Bits, b: Bits)
    ensures (x | y) & b != 0 <==> x & b != 0 || y & b != 0
  {
  }

  lemma CriteriaBits(rt: Bits, user: bool)
    ensures var ec := PROCESS | (if user then USER else 0) | (rt ^ MASK);
      && (ec & USER != 0 <==> user || rt & USER != 0)
      && (forall b | IsService(b) :: ec & b != 0 <==> rt & b == 0)
      && (ec & PROCESS != 0)
  {
  }

  /** What a cleanup reverts: services no surviving header holds, always its own process-scoped
      operations, and user-scoped ones exactly when nothing loaded or a header carries a stray
      user bit. */
  lemma CriteriaMeans(headers: seq<Option<Bits>>)
    ensures forall b | IsService(b) :: HasType(Some(Criteria(headers)), b) <==> !SomeHolds(headers, b)
    ensures HasType(Some(Criteria(headers)), PROCESS)
    ensures HasType(Some(Criteria(headers)), USER) <==> !SomeLoaded(headers) || SomeHolds(headers, USER)
  {
    CriteriaBits(Accumulate(headers).0, Accumulate(headers).1 == 0);
    AccumulateMeans(headers, USER);
    forall b | IsService(b)
      ensures HasType(Some(Criteria(headers)), b) <==> !SomeHolds(headers, b)
    {
      AccumulateMeans(headers, b);
    }
  }

  /** A header that loaded spares its services, and the user scope with them. */
  lemma CriteriaSpares(headers: seq<Option<Bits>>, k: nat)
    requires k < |headers| && headers[k].Some? && !SomeHolds(headers, USER)
    ensures Criteria(headers) & USER == 0
    ensures forall b | IsService(b) :: headers[k].value & b != 0 ==> Criteria(headers) & b == 0
  {
    CriteriaMeans(headers);
    forall b | IsService(b) && headers[k].value & b != 0 ensures Criteria(headers) & b == 0 {
      assert Holds(headers[k], b);
      assert HasType(Some(Criteria(headers)), b) <==> !SomeHolds(headers, b);
    }
    assert HasType(Some(Criteria(headers)), USER) <==> !SomeLoaded(headers) || SomeHolds(headers, USER);
  }

  /** A scope that a cleanup leaves alone is one a surviving entry accounts for. */
  lemma ScopeSpared(headers: seq<Option<Bits>>, t: Bits)
    requires IsScope(t) && !HasType(Some(Criteria(headers)), t)
    ensures t == USER || IsService(t)
    ensures if t == USER then SomeLoaded(headers) else SomeHolds(headers, t)
  {
    CriteriaMeans(headers);
  }
}

/** internal/lockedfile/lockedfile.go, Transform: replacing the contents of a locked file, with
  * writes and truncations that can fail half way. */
module LockedFile {
  import opened Wrappers

  type Byte = bv8

  type Error = nat

  /** What the file system does with one call that changes the file. A failing write has stored
    * the given number of its bytes; a failing truncation has not changed the file. */
  datatype Outcome = Works | Fails(error: Error, stored: nat)

  function Zeroes(n: nat): seq<Byte> {
    seq(n, _ => 0)
  }

  /** The contents after data is stored at off; a gap is filled with zeroes. */
  function Written(contents: seq<Byte>, off: nat, data: seq<Byte>): (r: seq<Byte>)
    ensures |r| == if data == [] then |contents| else if off + |data| > |contents| then off + |data| else |contents|
    ensures forall i :: off <= i < off + |data| ==> r[i] == data[i - off]
    ensures forall i :: 0 <= i < |contents| && !(off <= i < off + |data|) ==> r[i] == contents[i]
  {
    if data == [] then contents
    else
      var padded := if off > |contents| then contents + Zeroes(off - |contents|) else contents;
      padded[..off] + data + if off + |data| < |padded| then padded[off + |data|..] else []
  }

  function Truncated(contents: seq<Byte>, n: nat): (r: seq<Byte>)
    ensures |r| == n
    ensures forall i :: 0 <= i < n && i < |contents| ==> r[i] == contents[i]
  {
    if n <= |contents| then contents[..n] else contents + Zeroes(n - |contents|)
  }

  /** A file open for reading and writing, its lock held. Call number k is decided by outcome(k). */
  class File {
    var contents: seq<Byte>
    var calls: nat
    const outcome: nat -> Outcome

    constructor (contents: seq<Byte>, outcome: nat -> Outcome)
      ensures this.contents == contents && calls == 0 && this.outcome == outcome
    {
      this.contents, calls, this.outcome := contents, 0, outcome;
    }

    method WriteAt(data: seq<Byte>, off: nat) returns (err: Option<Error>)
      modifies this
      ensures calls == old(calls) + 1
      ensures outcome(old(calls)).Works? ==> err.None? && contents == Written(old(contents), off, data)
      ensures outcome(old(calls)).Fails? ==>
        && err == Some(outcome(old(calls)).error)
        && exists n :: 0 <= n <= |data| && contents == Written(old(contents), off, data[..n])
    {
      match outcome(calls) {
        case Works =>
          contents, err := Written(contents, off, data), None;
        case Fails(error, stored) =>
          var n := if stored <= |data| then stored else |data|;
          contents, err := Written(contents, off, data[..n]), Some(error);
      }
      calls := calls + 1;
    }

    method Truncate(n: nat) returns (err: Option<Error>)
      modifies this
      ensures calls == old(calls) + 1
      ensures outcome(old(calls)).Works? ==> err.None? && contents == Truncated(old(contents), n)
      ensures outcome(old(calls)).Fails? ==> err == Some(outcome(old(calls)).error) && contents == old(contents)
    {
      match outcome(calls) {
        case Works =>
          contents, err := Truncated(contents, n), None;
        case Fails(error, _) =>
          err := Some(error);
      }
      calls := calls + 1;
    }

    ghost predicate AllWork(c: nat, d: nat) {
      forall k: nat :: c <= k < d ==> outcome(k).Works?
    }

    /** The calls that put new in the place of was: one if the size stays, else two. */
    static function Needed(was: seq<Byte>, new_: seq<Byte>): nat {
      if |was| == |new_| then 1 else 2
    }

    /** The deferred rollback. */
    method Rollback(was: seq<Byte>)
      modifies this
      ensures outcome(old(calls)).Works? ==> was <= contents && calls == old(calls) + 2
      ensures outcome(old(calls)).Works? && outcome(old(calls) + 1).Works? ==> contents == was
      ensures outcome(old(calls)).Fails? ==> calls == old(calls) + 1
    {
      var err := WriteAt(was, 0);
      if err.None? {
        assert was <= contents;
        err := Truncate(|was|);
      }
    }

    /** What Transform does once t has returned new_. */
    method Replace(new_: seq<Byte>) returns (err: Option<Error>)
      modifies this
      ensures err.None? <==> AllWork(old(calls), old(calls) + Needed(old(contents), new_))
      ensures err.None? ==> contents == new_ && calls == old(calls) + Needed(old(contents), new_)
      ensures err.Some? ==> exists k: nat :: Failed(old(contents), new_, old(calls), k, err, contents, calls)
    {
      ghost var c := calls;
      var was := contents;
      if |new_| > |was| {
        err := WriteAt(new_[|was|..], |was|);
        if err.Some? {
          assert contents[..|was|] == was;
          var _ := Truncate(|was|);
          assert Failed(was, new_, c, 0, err, contents, calls);
          return;
        }
        err := WriteAt(new_[..|was|], 0);
        if err.Some? {
          Rollback(was);
          assert Failed(was, new_, c, 1, err, contents, calls);
        } else {
          assert contents == new_;
          assert outcome(c + 1).Works?;
        }
      } else {
        err := WriteAt(new_, 0);
        if err.Some? {
          Rollback(was);
          assert Failed(was, new_, c, 0, err, contents, calls);
        } else if |new_| < |was| {
          err := Truncate(|new_|);
          if err.Some? {
            Rollback(was);
            assert Failed(was, new_, c, 1, err, contents, calls);
          } else {
            assert outcome(c + 1).Works?;
          }
        }
      }
    }

    /** Call k of those needed was the first to fail, with this error, and left these contents:
      * the old ones if the calls of the rollback succeed, the old ones with bytes after them if
      * only its last call fails. */
    ghost predicate Failed(was: seq<Byte>, new_: seq<Byte>, c: nat, k: nat,
                           err: Option<Error>, now: seq<Byte>, calls: nat)
    {
      && k < Needed(was, new_)
      && AllWork(c, c + k)
      && outcome(c + k).Fails?
      && err == Some(outcome(c + k).error)
      && if |new_| > |was| && k == 0 then
           && calls == c + 2
           && was <= now
           && (outcome(c + 1).Works? ==> now == was)
         else if outcome(c + k + 1).Works? then
           && calls == c + k + 3
           && was <= now
           && (outcome(c + k + 2).Works? ==> now == was)
         else calls == c + k + 2
    }

    /** edit and read are the failures of Edit and of io.ReadAll, if any. */
    method Transform(edit: Option<Error>, read: Option<Error>, t: seq<Byte> -> Result<seq<Byte>, Error>)
      returns (err: Option<Error>)
      modifies this
      ensures err.None? <==>
        && edit.None? && read.None? && t(old(contents)).Ok?
        && AllWork(old(calls), old(calls) + Needed(old(contents), t(old(contents)).value))
      ensures err.None? ==> contents == t(old(contents)).value
      ensures edit.Some? ==> err == edit && contents == old(contents)
      ensures edit.None? && read.Some? ==> err == read && contents == old(contents)
      ensures edit.None? && read.None? && t(old(contents)).Err? ==>
        err == Some(t(old(contents)).error) && contents == old(contents)
      ensures edit.None? && read.None? && t(old(contents)).Ok? && err.Some? ==>
        exists k: nat :: Failed(old(contents), t(old(contents)).value, old(calls), k, err, contents, calls)
    {
      if edit.Some? {
        return edit;
      }
      var was := contents;
      if read.Some? {
        return read;
      }
      match t(was)
      case Err(e) => err := Some(e);
      case Ok(new_) => err := Replace(new_);
    }
  }

  /** Old or new: whichever call fails first, if every later call succeeds the file is as before. */
  lemma OldOrNew(f: File, was: seq<Byte>, new_: seq<Byte>, c: nat, k: nat, err: Option<Error>,
                 now: seq<Byte>, calls: nat)
    requires f.Failed(was, new_, c, k, err, now, calls)
    requires f.AllWork(c + k + 1, calls)
    ensures now == was
  {
    assert f.outcome(c + k + 1).Works?;
  }
}

/** A store segment: one directory of entry files, each starting with an eight byte header. */
module Store {
  import opened Wrappers
  import opened Enablements

  type Id = nat
  type Byte = bv8

  const MAGIC: seq<Byte> := [0x00, 0xff, 0xca, 0xfe]
  const REVISION: seq<Byte> := [0x00, 0x00]
  const HEADER_SIZE := |MAGIC| + |REVISION| + 2

  datatype HeaderError = InvalidMagic | UnexpectedRevision | Inconsistent

  function EncodeHeader(et: Bits): (data: seq<Byte>)
    ensures |data| == HEADER_SIZE
  {
    MAGIC + REVISION + [et, !et]
  }

  function DecodeHeader(data: seq<Byte>): Result<Bits, HeaderError>
    requires |data| == HEADER_SIZE
  {
    if data[..|MAGIC|] != MAGIC then Err(InvalidMagic)
    else if data[|MAGIC|..|MAGIC| + |REVISION|] != REVISION then Err(UnexpectedRevision)
    else if data[HEADER_SIZE - 2] != !data[HEADER_SIZE - 1] then Err(Inconsistent)
    else Ok(data[HEADER_SIZE - 2])
  }

  /** A header decodes to et exactly when it is the encoding of et: the format has no slack. */
  lemma HeaderRoundTrip(data: seq<Byte>, et: Bits)
    requires |data| == HEADER_SIZE
    ensures DecodeHeader(data) == Ok(et) <==> data == EncodeHeader(et)
  {
    assert data == data[..4] + data[4..6] + [data[6], data[7]];
    assert EncodeHeader(et)[..4] == MAGIC && EncodeHeader(et)[4..6] == REVISION;
  }

  /** What Load without a destination reports for the contents of an entry file. */
  function HeaderOf(content: seq<Byte>): Option<Bits> {
    if |content| < HEADER_SIZE then None
    else match DecodeHeader(content[..HEADER_SIZE])
      case Ok(et) => Some(et)
      case Err(_) => None
  }

  /** A write torn after k bytes leaves either an entry that does not load or one that loads
      with the enablements of its writer; no other byte is ever reported. */
  lemma TornWrite(et: Bits, body: seq<Byte>, k: nat)
    requires k <= HEADER_SIZE + |body|
    ensures HeaderOf((EncodeHeader(et) + body)[..k]) == if k < HEADER_SIZE then None else Some(et)
  {
    var file := EncodeHeader(et) + body;
    if k >= HEADER_SIZE {
      assert file[..k][..HEADER_SIZE] == EncodeHeader(et);
      HeaderRoundTrip(EncodeHeader(et), et);
    }
  }

  /** The headers a scan obtains, in directory order; an unreadable entry does not load. */
  function Headers(files: map<Id, seq<Byte>>, order: seq<Id>, unreadable: set<Id>): (hs: seq<Option<Bits>>)
    requires forall i :: i in order ==> i in files
    ensures |hs| == |order|
  {
    seq(|order|, k requires 0 <= k < |order| =>
      if order[k] in unreadable then None else HeaderOf(files[order[k]]))
  }

  /** A directory listing: every entry once, in any order. */
  ghost predicate IsListing(files: map<Id, seq<Byte>>, order: seq<Id>) {
    && (forall i :: i in order <==> i in files)
    && (forall j, k :: 0 <= j < k < |order| ==> order[j] != order[k])
  }

  /** What may go wrong while an entry is saved: opening it, writing all of it, or closing it. */
  datatype SaveFault = NoFault | OpenFault | Torn(written: nat) | CloseFault

  predicate SaveSucceeds(files: map<Id, seq<Byte>>, id: Id, fault: SaveFault) {
    id !in files && fault == NoFault
  }

  /** The directory after an attempt to save: creation is exclusive, and a fault after it leaves
      whatever part of the entry was written. */
  function SavedFiles(files: map<Id, seq<Byte>>, id: Id, et: Bits, body: seq<Byte>, fault: SaveFault)
    : map<Id, seq<Byte>>
  {
    var file := EncodeHeader(et) + body;
    if id in files || fault == OpenFault then files
    else if fault.Torn? && fault.written <= |file| then files[id := file[..fault.written]]
    else files[id := file]
  }

  predicate DestroySucceeds(files: map<Id, seq<Byte>>, id: Id, fault: bool) {
    id in files && !fault
  }

  function DestroyedFiles(files: map<Id, seq<Byte>>, id: Id, ok: bool): map<Id, seq<Byte>> {
    if ok then files - {id} else files
  }

  /** A save and a destroy without a fault give back the segment as it was exactly if the identifier
      was new and the file could be made, however much of it was written; and only then is there
      something to destroy that was not there before. */
  lemma DestroyUndoesSaveIff(files: map<Id, seq<Byte>>, id: Id, et: Bits, body: seq<Byte>, fault: SaveFault)
    ensures var saved := SavedFiles(files, id, et, body, fault);
      && (DestroySucceeds(saved, id, false) && DestroyedFiles(saved, id, true) == files <==>
            id !in files && fault != OpenFault)
      && (forall j :: j in saved && j != id ==> j in files && saved[j] == files[j])
  {
    var saved := SavedFiles(files, id, et, body, fault);
    if id !in files && fault != OpenFault {
      assert saved - {id} == files;
    }
  }

  /** A destroyed entry is the one a scan no longer counts: the headers of the others are as before,
      and the identifier can be saved again. */
  lemma DestroyForgets(files: map<Id, seq<Byte>>, id: Id, order: seq<Id>, unreadable: set<Id>)
    requires id in files && forall j :: j in order ==> j in files && j != id
    ensures var left := DestroyedFiles(files, id, true);
      && (forall j :: j in order ==> j in left) && Headers(left, order, unreadable) == Headers(files, order, unreadable)
      && (IsListing(left, order) <==> IsListing(files, order + [id]))
      && SaveSucceeds(left, id, NoFault)
  {
    var left, all := DestroyedFiles(files, id, true), order + [id];
    assert forall k :: 0 <= k < |order| ==> all[k] == order[k];
    assert all[|order|] == id;
    if IsListing(left, order) {
      forall j ensures j in all <==> j in files {
      }
    }
    if IsListing(files, all) {
      forall j ensures j in order <==> j in left {
        assert j in all <==> j in files;
      }
    }
  }

  class Segment {
    var files: map<Id, seq<Byte>>

    constructor ()
      ensures files == map[]
    {
      files := map[];
    }

    method Save(id: Id, et: Bits, body: seq<Byte>, fault: SaveFault) returns (ok: bool)
      modifies this
      ensures ok <==> SaveSucceeds(old(files), id, fault)
      ensures files == SavedFiles(old(files), id, et, body, fault)
      ensures ok ==> HeaderOf(files[id]) == Some(et)
    {
      if id in files || fault == OpenFault {
        return false;
      }
      files := files[id := []];
      var header := EncodeHeader(et);
      var file := header + body;
      if fault.Torn? && fault.written <= |file| {
        files := files[id := file[..fault.written]];
        return false;
      }
      files := files[id := file];
      ok := fault == NoFault;
      TornWrite(et, body, |file|);
      assert file[..|file|] == file;
    }

    method Destroy(id: Id, fault: bool) returns (ok: bool)
      modifies this
      ensures ok <==> DestroySucceeds(old(files), id, fault)
      ensures files == DestroyedFiles(old(files), id, ok)
    {
      ok := id in files && !fault;
      if ok {
        files := files - {id};
      }
    }

    /** The scan of the cleanup: the bits of the headers that load and their number. */
    method Scan(order: seq<Id>, unreadable: set<Id>) returns (rt: Bits, n: nat)
      requires forall i :: i in order ==> i in files
      ensures (rt, n) == Accumulate(Headers(files, order, unreadable))
    {
      rt, n := 0, 0;
      ghost var hs := Headers(files, order, unreadable);
      for k := 0 to |order|
        invariant (rt, n) == Accumulate(hs[..k])
      {
        assert hs[..k + 1][..k] == hs[..k];
        var h := if order[k] in unreadable then None else HeaderOf(files[order[k]]);
        if h.Some? {
          rt, n := rt | h.value, n + 1;
        }
      }
      assert hs[..|order|] == hs;
    }
  }
}

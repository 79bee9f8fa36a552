/** The native library behind NativeMethods, seen as an oracle: it owns the
    object database and a table of open object handles, and records every call
    made to it in a ghost log. Only what the managed side relies on is modelled. */
module Native {
  import opened Wrappers
  import opened ObjectIds

  /** An opaque native object handle; Zero plays the part of IntPtr.Zero. */
  type Handle = nat

  const Zero: Handle := 0

  /** The native object kind. `Any` is a lookup filter; every kind outside the
      four object kinds and `Any` is folded into `Other`. */
  datatype GitObjectType = Any | Commit | Tree | Blob | Tag | Other(code: int)

  /** One call into the native library. */
  datatype NativeCall =
    | Lookup(oid: RawOid, filter: GitObjectType, status: int)  // git_object_lookup and its status
    | TypeQuery(handle: Handle)                                 // git_object_type
    | ReadFields(handle: Handle, status: int)                   // a builder's reads and their status
    | Close(handle: Handle)                                     // git_object_close

  /** The exceptions the core raises. */
  datatype Error =
    | NativeOperationFailed(status: int)                  // raised by Ensure.Success
    | InvalidOperation(kind: GitObjectType, id: ObjectId) // unexpected object kind

  /** Ensure.Success: a non-zero native status becomes an exception carrying it. */
  function EnsureSuccess(status: int): (o: Outcome<Error>)
    ensures o.Pass? <==> status == 0
    ensures o.Fail? ==> o.error == NativeOperationFailed(status)
  {
    if status == 0 then Pass else Fail(NativeOperationFailed(status))
  }

  /** How many times `h` was closed in `log`. */
  function CloseCount(log: seq<NativeCall>, h: Handle): nat
  {
    if log == [] then 0
    else CloseCount(log[..|log| - 1], h) + (if log[|log| - 1] == Close(h) then 1 else 0)
  }

  lemma {:induction false} CloseCountAppend(log: seq<NativeCall>, c: NativeCall, h: Handle)
    ensures CloseCount(log + [c], h) == CloseCount(log, h) + (if c == Close(h) then 1 else 0)
  {
    assert (log + [c])[..|log|] == log;
  }

  /** Close counts add up over a concatenated log. */
  lemma {:induction false} CloseCountConcat(log: seq<NativeCall>, more: seq<NativeCall>, h: Handle)
    ensures CloseCount(log + more, h) == CloseCount(log, h) + CloseCount(more, h)
  {
    if more == [] {
      assert log + more == log;
    } else {
      var init := more[..|more| - 1];
      var last := more[|more| - 1];
      assert more == init + [last];
      assert log + more == (log + init) + [last];
      CloseCountConcat(log, init, h);
      CloseCountAppend(log + init, last, h);
    }
  }

  class NativeLibrary {
    /** The repository's object database: the kind of every stored object. */
    const objects: map<RawOid, GitObjectType>
    /** The open handles and the object each one refers to. */
    var open: map<Handle, RawOid>
    /** The next handle the library hands out; handles are never reused. */
    var nextHandle: Handle
    /** Every native call made so far, in order. */
    ghost var log: seq<NativeCall>

    /** Open handles are live and refer to stored objects; no handle was ever
        closed twice, and no open or future handle has been closed yet. */
    ghost predicate Valid()
      reads this
    {
      Zero < nextHandle &&
      (forall h :: h in open ==> Zero < h < nextHandle && open[h] in objects) &&
      (forall h :: h in open || nextHandle <= h ==> CloseCount(log, h) == 0) &&
      (forall h :: CloseCount(log, h) <= 1)
    }

    constructor (objects: map<RawOid, GitObjectType>)
      ensures Valid()
      ensures this.objects == objects && open == map[] && log == []
    {
      this.objects := objects;
      open := map[];
      nextHandle := 1;
      log := [];
    }

    /** Whether git_object_lookup finds `oid` under the type filter. */
    predicate LookupSucceeds(oid: RawOid, filter: GitObjectType)
    {
      oid in objects && (filter == Any || objects[oid] == filter)
    }

    /** git_object_lookup: on success a fresh handle to the object, on failure
        a negative status and (as assumed of the library) a zero handle. */
    method ObjectLookup(oid: RawOid, filter: GitObjectType) returns (status: int, h: Handle)
      requires Valid()
      modifies this
      ensures Valid()
      ensures log == old(log) + [Lookup(oid, filter, status)]
      ensures status == 0 <==> LookupSucceeds(oid, filter)
      ensures status == 0 ==> h != Zero && h !in old(open) && open == old(open)[h := oid]
      ensures status != 0 ==> status < 0 && h == Zero && open == old(open)
    {
      if LookupSucceeds(oid, filter) {
        status, h := 0, nextHandle;
        open := open[h := oid];
        nextHandle := nextHandle + 1;
      } else {
        status :| status < 0;
        h := Zero;
      }
      log := log + [Lookup(oid, filter, status)];
      forall k ensures CloseCount(log, k) == CloseCount(old(log), k) {
        CloseCountAppend(old(log), Lookup(oid, filter, status), k);
      }
    }

    /** git_object_type: the kind of the object behind an open handle. */
    method ObjectType(h: Handle) returns (kind: GitObjectType)
      requires Valid() && h in open
      modifies this
      ensures Valid()
      ensures open == old(open) && nextHandle == old(nextHandle)
      ensures log == old(log) + [TypeQuery(h)]
      ensures kind == objects[open[h]]
    {
      log := log + [TypeQuery(h)];
      forall k ensures CloseCount(log, k) == CloseCount(old(log), k) {
        CloseCountAppend(old(log), TypeQuery(h), k);
      }
      kind := objects[open[h]];
    }

    /** The native reads a builder makes to copy an object's fields out; the
        library may report any status. */
    method ReadObjectFields(h: Handle) returns (status: int)
      requires Valid() && h in open
      modifies this
      ensures Valid()
      ensures open == old(open) && nextHandle == old(nextHandle)
      ensures log == old(log) + [ReadFields(h, status)]
    {
      status :| true;
      log := log + [ReadFields(h, status)];
      forall k ensures CloseCount(log, k) == CloseCount(old(log), k) {
        CloseCountAppend(old(log), ReadFields(h, status), k);
      }
    }

    /** git_object_close: only an open handle may be closed, and closing it
        removes it from the table for good. */
    method ObjectClose(h: Handle)
      requires Valid() && h in open
      modifies this
      ensures Valid()
      ensures open == old(open) - {h} && nextHandle == old(nextHandle)
      ensures log == old(log) + [Close(h)]
    {
      log := log + [Close(h)];
      forall k ensures CloseCount(log, k) == CloseCount(old(log), k) + (if k == h then 1 else 0) {
        CloseCountAppend(old(log), Close(h), k);
      }
      open := open - {h};
    }
  }
}

/** ObjectSafeWrapper: scoped ownership of at most one native object handle,
    released at most once whether by Dispose or by the finalizer. */
module ObjectSafeWrappers {
  import opened Wrappers
  import opened ObjectIds
  import opened Native

  /** What Dispose(bool) reads and changes: the held handle and the native call log. */
  datatype WrapperState = WrapperState(ptr: Handle, log: seq<NativeCall>)

  /** One run of Dispose(bool), explicit (`disposing`) or from the finalizer:
      an empty wrapper is left alone, a held handle is closed and then zeroed.
      The flag does not change the outcome. */
  function DisposeStep(s: WrapperState, disposing: bool): (t: WrapperState)
    ensures t.ptr == Zero
    ensures s.ptr == Zero ==> t == s
    ensures s.ptr != Zero ==> t.log == s.log + [Close(s.ptr)]
  {
    if s.ptr == Zero then s else WrapperState(Zero, s.log + [Close(s.ptr)])
  }

  /** Any sequence of disposals: `true` for an explicit Dispose(), `false` for a finalizer run. */
  function DisposeAll(s: WrapperState, calls: seq<bool>): WrapperState
    decreases |calls|
  {
    if calls == [] then s else DisposeAll(DisposeStep(s, calls[0]), calls[1..])
  }

  /** Disposing twice, in either order of explicit call and finalizer, is disposing once. */
  lemma DisposeIdempotent(s: WrapperState, first: bool, second: bool)
    ensures DisposeStep(DisposeStep(s, first), second) == DisposeStep(s, first)
  {
  }

  /** However many disposals follow, the effect is that of the first one. */
  lemma {:induction false} DisposeAllIsFirst(s: WrapperState, calls: seq<bool>)
    requires calls != []
    ensures DisposeAll(s, calls) == DisposeStep(s, calls[0])
    decreases |calls|
  {
    var t := DisposeStep(s, calls[0]);
    if |calls| > 1 {
      DisposeAllIsFirst(t, calls[1..]);
      DisposeIdempotent(s, calls[0], calls[1]);
    } else {
      assert calls[1..] == [];
    }
  }

  /** Across any sequence of disposals the held handle is closed once if
      there was at least one call, and no other handle is closed at all; the
      wrapper ends up empty. */
  lemma {:induction false} DisposeAllClosesAtMostOnce(s: WrapperState, calls: seq<bool>, h: Handle)
    ensures DisposeAll(s, calls).ptr == if calls == [] then s.ptr else Zero
    ensures CloseCount(DisposeAll(s, calls).log, h)
         == CloseCount(s.log, h) + (if calls != [] && s.ptr != Zero && h == s.ptr then 1 else 0)
  {
    if calls != [] {
      DisposeAllIsFirst(s, calls);
      if s.ptr != Zero {
        CloseCountAppend(s.log, Close(s.ptr), h);
      }
    }
  }

  class ObjectSafeWrapper {
    var objectPtr: Handle
    /** The native library reached through the repository's handle. */
    const lib: NativeLibrary

    /** The handle is either zero or an open handle of the library. */
    ghost predicate Valid()
      reads this, lib
    {
      lib.Valid() && (objectPtr == Zero || objectPtr in lib.open)
    }

    ghost function State(): WrapperState
      reads this, lib
    {
      WrapperState(objectPtr, lib.log)
    }

    /** Allocation with the field initialiser: no handle held. */
    constructor (lib: NativeLibrary)
      ensures this.lib == lib && objectPtr == Zero
    {
      this.lib := lib;
      objectPtr := Zero;
    }

    /** `new ObjectSafeWrapper(id, repo)`. A null id (None) gives an empty
        wrapper without calling the library; any other id is looked up once
        with the `Any` filter and the status goes through Ensure.Success. The
        wrapper is allocated either way, as a C# object whose constructor threw
        still is; after a failed lookup it holds no handle. */
    static method New(id: Option<ObjectId>, lib: NativeLibrary) returns (w: ObjectSafeWrapper, outcome: Outcome<Error>)
      requires lib.Valid()
      modifies lib
      ensures fresh(w) && w.lib == lib && w.Valid()
      ensures id.None? ==> outcome == Pass && w.objectPtr == Zero && lib.log == old(lib.log) && lib.open == old(lib.open)
      ensures id.Some? ==> exists status :: lib.log == old(lib.log) + [Lookup(id.value.raw, Any, status)]
                                           && outcome == EnsureSuccess(status)
      ensures id.Some? ==> (outcome.Pass? <==> lib.LookupSucceeds(id.value.raw, Any))
      ensures id.Some? && outcome.Pass? ==>
                w.objectPtr != Zero && w.objectPtr !in old(lib.open) && lib.open == old(lib.open)[w.objectPtr := id.value.raw]
      ensures outcome.Fail? ==>
                outcome.error.NativeOperationFailed? && outcome.error.status != 0 &&
                w.objectPtr == Zero && lib.open == old(lib.open)
    {
      w := new ObjectSafeWrapper(lib);
      if id.None? {
        outcome := Pass;
        return;
      }
      var oid := id.value.raw;
      var status;
      status, w.objectPtr := lib.ObjectLookup(oid, Any);
      outcome := EnsureSuccess(status);
    }

    /** The held handle, read-only: zero or open. */
    function ObjectPtr(): (h: Handle)
      reads this, lib
      requires Valid()
      ensures h == objectPtr
      ensures h == Zero || h in lib.open
    {
      objectPtr
    }

    /** Dispose(): the explicit release, through Dispose(true). */
    method Dispose()
      requires Valid()
      modifies this, lib
      ensures Valid()
      ensures State() == DisposeStep(old(State()), true)
      ensures lib.open == old(lib.open) - {old(objectPtr)}
    {
      DisposeCore(true);
    }

    /** Dispose(bool): close a held handle, then zero it. */
    method DisposeCore(disposing: bool)
      requires Valid()
      modifies this, lib
      ensures Valid()
      ensures State() == DisposeStep(old(State()), disposing)
      ensures lib.open == old(lib.open) - {old(objectPtr)}
    {
      if objectPtr == Zero {
        return;
      }
      lib.ObjectClose(objectPtr);
      objectPtr := Zero;
    }

    /** The finalizer, through Dispose(false). */
    method Finalize()
      requires Valid()
      modifies this, lib
      ensures Valid()
      ensures State() == DisposeStep(old(State()), false)
      ensures lib.open == old(lib.open) - {old(objectPtr)}
    {
      DisposeCore(false);
    }
  }
}

# LibGit2Sharp object interop core in Dafny

A model of three pieces of the managed side of LibGit2Sharp, the .NET binding
of libgit2:

- **ObjectSafeWrapper** (`object_safe_wrapper.dfy`): a class holding zero or one
  native object handle. A null id gives an empty wrapper without touching the
  native library; any other id is looked up once with the `Any` filter and the
  status is checked by `Ensure.Success`. `Dispose()` and the finalizer both go
  through `Dispose(bool)`, which closes a held handle and then zeroes it, so no
  handle is ever closed twice.
- **GitObject** (`git_object.dfy`): the value type with its four variants
  (Commit, Tree, Blob, TagAnnotation), the constant `TypeToTypeMap`, and
  `CreateFromPtr`, which asks the native library for the object's kind,
  dispatches to exactly one `BuildFromPtr`, throws `InvalidOperationException`
  for any other kind, and closes the handle in a `finally` on every path.
  Equality, `==`, `!=` and the hash code depend on `Id` only.
- **StatusEntry** (`status_entry.dfy`): a (file path, state) value whose
  equality, `==`, `!=` and hash code depend on both components.

The native library (`native.dfy`) is an oracle class, `NativeLibrary`. It holds
the object database (the kind of each stored object), the table of open handles
and a handle counter that never reuses a value. A ghost log records every call
made to it. `ObjectClose` may only be called on an open handle, and the class
invariant keeps every handle's close count at most one. So each caller that
verifies against it never double-closes. Exceptions are values:
`Result`/`Outcome` from `wrappers.dfy`, with the error kinds
`NativeOperationFailed(status)` (from `Ensure.Success`) and
`InvalidOperation(kind, id)`. The log records the status each lookup and
each builder read reported, so results can be stated as functions of it.
`ObjectId` (`object_id.dfy`) is 20 raw bytes; its `Sha` is taken to be their
40-character lowercase hexadecimal form, which is proved injective.

A C# object reference of static type `object` is modelled as `ObjRef<T>`
(null, a `T`, or an object of another type), and a nullable `GitObject` or
`StatusEntry` is modelled as `Option`. The constructors of `GitObject` and
`StatusEntry` are the datatype constructors; their fields (`id`, `filePath`,
`state`) are immutable, so `Id`, `FilePath` and `State` always return what the
constructor stored. `Sha` is computed from `Id` alone.

Notes on the `ObjectSafeWrapper` constructor:

- A failed lookup throws after the object is allocated, so the object exists
  and its finalizer still runs. `ObjectSafeWrapper.New` therefore returns the fresh
  wrapper together with the outcome. The handle after a failed lookup is
  assumed to be zero, so that finalizer run does nothing.

## Model

| member | source | states |
|---|---|---|
| `ObjectSafeWrappers.ObjectSafeWrapper.constructor` | LibGit2Sharp/Core/ObjectSafeWrapper.cs:7 | a freshly allocated wrapper holds no handle (`IntPtr.Zero`) |
| `ObjectSafeWrappers.ObjectSafeWrapper.New` | LibGit2Sharp/Core/ObjectSafeWrapper.cs:9-19 | a null id makes no native call and leaves the handle zero; any other id makes exactly one `git_object_lookup` with the id's raw bytes and the `Any` filter, and the outcome is `Ensure.Success` of the status that lookup returned; it passes iff the lookup succeeds, and then the wrapper holds a fresh open handle to that object; on failure the handle is zero and no handle was opened |
| `ObjectSafeWrappers.ObjectSafeWrapper.ObjectPtr` | LibGit2Sharp/Core/ObjectSafeWrapper.cs:21-24 | returns the current value of the handle field, which is zero or an open handle |
| `ObjectSafeWrappers.ObjectSafeWrapper.Dispose` | LibGit2Sharp/Core/ObjectSafeWrapper.cs:26-30 | has the effect of `DisposeStep(_, true)` on the handle and the native log, and removes the held handle from the open handles |
| `ObjectSafeWrappers.ObjectSafeWrapper.DisposeCore` | LibGit2Sharp/Core/ObjectSafeWrapper.cs:32-41 | an empty wrapper makes no native call and changes nothing; a held handle H gets exactly one `git_object_close(H)` and the field becomes zero; the wrapper stays valid |
| `ObjectSafeWrappers.ObjectSafeWrapper.Finalize` | LibGit2Sharp/Core/ObjectSafeWrapper.cs:43-46 | the finalizer has the effect of `DisposeStep(_, false)`, the same as an explicit dispose |
| `ObjectSafeWrappers.DisposeStep` | LibGit2Sharp/Core/ObjectSafeWrapper.cs:32-41 | after a dispose the handle is zero; from zero nothing changes; from a held handle the log grows by exactly the close of that handle |
| `ObjectSafeWrappers.DisposeIdempotent` | LibGit2Sharp/Core/ObjectSafeWrapper.cs:26-46 | a second dispose, explicit or by the finalizer, after a first one changes nothing |
| `ObjectSafeWrappers.DisposeAllIsFirst` | LibGit2Sharp/Core/ObjectSafeWrapper.cs:26-46 | any non-empty sequence of `Dispose()` and finalizer runs has the effect of the first one alone |
| `ObjectSafeWrappers.DisposeAllClosesAtMostOnce` | LibGit2Sharp/Core/ObjectSafeWrapper.cs:26-46 | over any sequence of disposals the held handle is closed once in total (if there was a call) and no other handle is closed; the wrapper ends empty |
| `Native.EnsureSuccess` | LibGit2Sharp/Core/ObjectSafeWrapper.cs:18 | passes iff the status is zero; otherwise fails with `NativeOperationFailed` carrying that status |
| `Native.NativeLibrary.ObjectLookup` | LibGit2Sharp/Core/ObjectSafeWrapper.cs:17 | the lookup oracle: status zero iff the object is stored and matches the filter, then a fresh non-zero open handle to it; otherwise a negative status and a zero handle; one `Lookup` entry carrying the status in the log |
| `Native.NativeLibrary.ObjectType` | LibGit2Sharp/GitObject.cs:51 | returns the stored kind of the object behind an open handle; one `TypeQuery` entry in the log |
| `Native.NativeLibrary.ReadObjectFields` | LibGit2Sharp/GitObject.cs:55-61 | the native reads of a builder: any status, handles unchanged, one `ReadFields` entry carrying that status in the log |
| `Native.NativeLibrary.ObjectClose` | LibGit2Sharp/Core/ObjectSafeWrapper.cs:39 | only an open handle may be closed; it leaves the open handles, one `Close` entry is logged, and no handle's close count ever exceeds one |
| `GitObjects.BuildResult` | LibGit2Sharp/GitObject.cs:55-61 | a builder whose reads report status zero returns its own variant carrying `id`; any other status becomes `NativeOperationFailed` carrying that status |
| `GitObjects.BuildFromPtr` | LibGit2Sharp/GitObject.cs:55-61 | a builder receives `obj` and `id`, reads the object's fields through `obj` once, and returns `BuildResult` of the status those reads reported |
| `GitObjects.CreateFromPtr` | LibGit2Sharp/GitObject.cs:47-70 | the native calls are exactly: kind query, the builder's reads if the kind is Commit/Tree/Tag/Blob, then `git_object_close(obj)`; `obj` is closed exactly once on every path and leaves the open handles; a recognised kind yields exactly what its builder yields for the status its reads reported (the matching variant with `Id == id` on success, the builder's exception otherwise); any other kind yields `InvalidOperation(kind, id)` |
| `GitObjects.CreateCallsCloseOnce` | LibGit2Sharp/GitObject.cs:47-70 | among the calls of `CreateFromPtr` the close of `obj` occurs exactly once, is the last call, and no other handle is closed |
| `GitObjects.BuilderFor` | LibGit2Sharp/GitObject.cs:52-63 | the switch: a kind selects a builder iff it is Commit, Tree, Tag or Blob, and the type the builder produces is the one the type map sends to that kind; every other kind selects none |
| `GitObjects.Make` | LibGit2Sharp/GitObject.cs:54-61 | each builder produces its own variant (Commit, Tree, TagAnnotation, Blob) carrying the given id |
| `GitObjects.TypeMapInjective` | LibGit2Sharp/GitObject.cs:12-20 | the type map covers Commit, Tree, Blob, TagAnnotation and GitObject and assigns them pairwise distinct kinds |
| `GitObjects.DispatchMatchesTypeMap` | LibGit2Sharp/GitObject.cs:12-63 | a kind has a builder iff a concrete managed type maps to it, and that builder builds exactly that type; `Any` belongs to GitObject only and has no builder |
| `GitObjects.GitObject.Sha` | LibGit2Sharp/GitObject.cs:39-45 | the sha is 40 characters long |
| `GitObjects.ShaIdentifiesId` | LibGit2Sharp/GitObject.cs:42-45 | two objects have equal `Sha` iff they have equal `Id` |
| `ObjectIds.ObjectId.Sha` | LibGit2Sharp/GitObject.cs:40 | the sha is 40 lowercase hexadecimal digits |
| `ObjectIds.ShaInjective` | LibGit2Sharp/GitObject.cs:40-44 | distinct ids have distinct shas (the hex form decodes back to the raw bytes) |
| `GitObjects.GitObject.Equals` | LibGit2Sharp/GitObject.cs:93-96 | equal iff the other object is non-null and has the same `Id` |
| `GitObjects.GitObject.EqualsObject` | LibGit2Sharp/GitObject.cs:83-86 | `Equals(object)` is true iff the argument is a GitObject with the same `Id` |
| `GitObjects.OpEquals` | LibGit2Sharp/GitObject.cs:113-116 | `==` holds iff both are null or both are non-null with equal `Id` |
| `GitObjects.OpNotEquals` | LibGit2Sharp/GitObject.cs:124-127 | `!=` holds iff exactly one is null or both are non-null with different `Id` |
| `GitObjects.EqualsIsEquivalence` | LibGit2Sharp/GitObject.cs:83-96 | equality is reflexive, symmetric and transitive, and a GitObject never equals null |
| `GitObjects.EqualsForeignIsNull` | LibGit2Sharp/GitObject.cs:83-86 | `Equals(object)` on a reference of another type is comparison with null, which is false |
| `GitObjects.OperatorsAgree` | LibGit2Sharp/GitObject.cs:113-127 | `==` agrees with `Equals` on a non-null left operand and `!=` is always its negation |
| `GitObjects.GitObject.GetHashCode` | LibGit2Sharp/GitObject.cs:102-105 | the hash code is that of the `Id` alone |
| `GitObjects.HashConsistent` | LibGit2Sharp/GitObject.cs:102-105 | equal GitObjects have equal hash codes |
| `StatusEntries.StatusEntry.Equals` | LibGit2Sharp/StatusEntry.cs:41-44 | equal iff the other entry is non-null with the same `FilePath` and the same `State` |
| `StatusEntries.StatusEntry.EqualsObject` | LibGit2Sharp/StatusEntry.cs:55-58 | `Equals(object)` is true iff the argument is a StatusEntry with the same path and state |
| `StatusEntries.OpEquals` | LibGit2Sharp/StatusEntry.cs:77-80 | `==` holds iff both are null or both are the same (path, state) pair |
| `StatusEntries.OpNotEquals` | LibGit2Sharp/StatusEntry.cs:88-91 | `!=` holds iff the two are not both null and not the same pair |
| `StatusEntries.EqualsIffSamePair` | LibGit2Sharp/StatusEntry.cs:8-9 | two entries are equal iff path and state both match; a difference in either breaks equality |
| `StatusEntries.EqualsIsEquivalence` | LibGit2Sharp/StatusEntry.cs:41-44 | equality is reflexive, symmetric and transitive, and an entry never equals null |
| `StatusEntries.EqualsForeignIsNull` | LibGit2Sharp/StatusEntry.cs:55-58 | `Equals(object)` on a reference of another type is comparison with null, which is false |
| `StatusEntries.OperatorsAgree` | LibGit2Sharp/StatusEntry.cs:77-91 | `==` agrees with `Equals` on a non-null left operand and `!=` is always its negation |
| `StatusEntries.StatusEntry.GetHashCode` | LibGit2Sharp/StatusEntry.cs:64-67 | the hash code combines the hashes of `FilePath` and `State` and nothing else |
| `StatusEntries.HashConsistent` | LibGit2Sharp/StatusEntry.cs:64-67 | equal entries have equal hash codes |
| `Wrappers.As` | LibGit2Sharp/GitObject.cs:85 | `obj as T` gives the object itself for a reference of type T and null for null or any other type |
| `Wrappers.KeyEquals` | LibGit2Sharp/GitObject.cs:22-23 | key-based equality: never equal to null; equal to a non-null other iff the keys agree; always equal to itself |

## Left out

- The native library itself: `git_object_lookup`, `git_object_type` and `git_object_close` are an oracle class with contracts. Concrete libgit2 error codes are not modelled: a failed lookup returns some negative status.
- The `GitObjectType` enum is not part of this model. Its members other than `Any`, `Commit`, `Tree`, `Blob` and `Tag` are folded into `Other(code)`.
- `ObjectIdOf` (LibGit2Sharp/GitObject.cs:72-76): it marshals a native struct from foreign memory.
- The per-variant `BuildFromPtr` builders are not part of this model beyond their interface. A builder is one native read of the object's fields whose status may be anything, checked by `Ensure.Success`. The type-specific fields they copy (author, message, entries, content) are not modelled.
- `ObjectId` is not part of this model beyond its 20 raw bytes, its `Sha` and a hash code. GitObject.cs:40 documents only that the sha has 40 characters; the lowercase, two-digits-per-byte, high-nibble-first form of `Sha` is an assumption about `ObjectId`.
- `LambdaEqualityHelper` is not part of this model. It is taken to compare the selected keys componentwise and to hash them consistently. Any further check it may make (such as comparing runtime types) is not modelled.
- Concrete hash-code values: `GetHashCode` uses stand-in functions of the keys. Only agreement with equality is stated.
- The text of the `InvalidOperationException` message. The error value carries the kind and the id that the message names.
- The reference-equality shortcut of the static `object.Equals(left, right)`. Values are immutable here, so identical references have equal ids and the shortcut gives the same answer.
- A null `FilePath` in a StatusEntry: paths are non-null strings.
- `GC.SuppressFinalize` and garbage-collector scheduling. The finalizer is one more `Dispose(false)` that may run at any later point, and any sequence of such runs is covered.
- `repo.Handle`: the repository's native session is the `NativeLibrary` object the wrapper refers to.
- LibGit2Sharp.Tests/TestHelpers/BaseFixture.cs: test set-up made of file-system I/O only.
- Concurrency: none is involved; calls are sequential.

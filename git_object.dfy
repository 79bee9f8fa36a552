/** GitObject: the immutable value materialised from a native object handle,
    identified by its ObjectId alone. */
module GitObjects {
  import opened Wrappers
  import opened ObjectIds
  import opened Native

  /** The four object variants; type-specific fields are not modelled. */
  datatype GitObject =
    | Commit(id: ObjectId)
    | Tree(id: ObjectId)
    | Blob(id: ObjectId)
    | TagAnnotation(id: ObjectId)
  {
    /** The 40-character sha of the object's id. */
    function Sha(): (s: string)
      ensures |s| == 40
    {
      id.Sha()
    }

    /** Equals(GitObject): through the equality helper keyed on Id. */
    function Equals(other: Option<GitObject>): (r: bool)
      ensures r <==> other.Some? && other.value.id == id
    {
      KeyEquals((g: GitObject) => g.id, this, other)
    }

    /** Equals(object): `Equals(obj as GitObject)`. */
    function EqualsObject(obj: ObjRef<GitObject>): (r: bool)
      ensures r <==> obj.Ref? && obj.target.id == id
    {
      Equals(As(obj))
    }

    /** GetHashCode: through the equality helper keyed on Id, so it depends
        on the id alone. */
    function GetHashCode(): (h: int)
      ensures h == id.GetHashCode()
    {
      KeyHash((g: GitObject) => g.id, (k: ObjectId) => k.GetHashCode(), this)
    }
  }

  /** `operator ==`, i.e. the static object.Equals(left, right): two nulls are
      equal, null and non-null are not, otherwise left.Equals((object)right). */
  function OpEquals(left: Option<GitObject>, right: Option<GitObject>): (r: bool)
    ensures r <==> (left.None? && right.None?) || (left.Some? && right.Some? && left.value.id == right.value.id)
  {
    if left.None? && right.None? then true
    else if left.None? || right.None? then false
    else left.value.EqualsObject(Ref(right.value))
  }

  /** `operator !=`: `!Equals(left, right)`. */
  function OpNotEquals(left: Option<GitObject>, right: Option<GitObject>): (r: bool)
    ensures r <==> (left.None? != right.None?) || (left.Some? && right.Some? && left.value.id != right.value.id)
  {
    !OpEquals(left, right)
  }

  /** The managed types that appear as keys of the type map. */
  datatype ManagedType = CommitClass | TreeClass | BlobClass | TagAnnotationClass | GitObjectClass

  /** TypeToTypeMap: the native kind each managed type stands for. */
  const TypeToTypeMap: map<ManagedType, GitObjectType> :=
    map[CommitClass := GitObjectType.Commit,
        TreeClass := GitObjectType.Tree,
        BlobClass := GitObjectType.Blob,
        TagAnnotationClass := GitObjectType.Tag,
        GitObjectClass := GitObjectType.Any]

  /** The managed type of a value. */
  function ClassOf(g: GitObject): (t: ManagedType)
    ensures t != GitObjectClass
  {
    match g
    case Commit(_) => CommitClass
    case Tree(_) => TreeClass
    case Blob(_) => BlobClass
    case TagAnnotation(_) => TagAnnotationClass
  }

  /** The four BuildFromPtr factories. */
  datatype Builder = CommitBuilder | TreeBuilder | TagAnnotationBuilder | BlobBuilder

  /** The managed type a builder produces. */
  function BuiltClass(b: Builder): (t: ManagedType)
    ensures t != GitObjectClass
  {
    match b
    case CommitBuilder => CommitClass
    case TreeBuilder => TreeClass
    case TagAnnotationBuilder => TagAnnotationClass
    case BlobBuilder => BlobClass
  }

  /** The value a builder produces for `id`. */
  function Make(b: Builder, id: ObjectId): (g: GitObject)
    ensures g.id == id && ClassOf(g) == BuiltClass(b)
  {
    match b
    case CommitBuilder => GitObject.Commit(id)
    case TreeBuilder => GitObject.Tree(id)
    case TagAnnotationBuilder => TagAnnotation(id)
    case BlobBuilder => GitObject.Blob(id)
  }

  /** The switch in CreateFromPtr: the builder a native kind dispatches to,
      if any. */
  function BuilderFor(kind: GitObjectType): (b: Option<Builder>)
    ensures b.Some? <==> kind.Commit? || kind.Tree? || kind.Tag? || kind.Blob?
    ensures b.Some? ==> TypeToTypeMap[BuiltClass(b.value)] == kind
  {
    match kind
    case Commit => Some(CommitBuilder)
    case Tree => Some(TreeBuilder)
    case Tag => Some(TagAnnotationBuilder)
    case Blob => Some(BlobBuilder)
    case _ => None
  }

  /** What a builder returns once its reads reported `status`: the variant it
      builds, carrying `id`, or the exception Ensure.Success raises. */
  function BuildResult(b: Builder, id: ObjectId, status: int): (r: Result<GitObject, Error>)
    ensures r.Success? <==> status == 0
    ensures r.Success? ==> r.value.id == id && ClassOf(r.value) == BuiltClass(b)
    ensures r.Failure? ==> r.error == NativeOperationFailed(status)
  {
    match EnsureSuccess(status)
    case Pass => Success(Make(b, id))
    case Fail(e) => Failure(e)
  }

  /** The native calls CreateFromPtr makes on `obj` once it has read `kind`:
      the kind query, the builder's reads (reporting `status`) if a builder is
      chosen, and the close. */
  function CreateCalls(obj: Handle, kind: GitObjectType, status: int): seq<NativeCall>
  {
    [TypeQuery(obj)] + (if BuilderFor(kind).Some? then [ReadFields(obj, status)] else []) + [Close(obj)]
  }

  /** The map is total over the managed types and sends them to distinct kinds. */
  lemma TypeMapInjective(a: ManagedType, b: ManagedType)
    ensures a in TypeToTypeMap && b in TypeToTypeMap
    ensures TypeToTypeMap[a] == TypeToTypeMap[b] ==> a == b
  {
  }

  /** A kind has a builder exactly when some concrete managed type maps to
      it, and then the builder produces that type; `Any` maps from GitObject
      only and has no builder. */
  lemma DispatchMatchesTypeMap(kind: GitObjectType, t: ManagedType)
    ensures t != GitObjectClass && TypeToTypeMap[t] == kind
        <==> BuilderFor(kind).Some? && BuiltClass(BuilderFor(kind).value) == t
    ensures TypeToTypeMap[GitObjectClass] == GitObjectType.Any && BuilderFor(GitObjectType.Any) == None
  {
  }

  /** Among the calls CreateFromPtr makes, exactly one closes the handle, no
      other handle is closed, and the close comes last. */
  lemma {:induction false} CreateCallsCloseOnce(obj: Handle, kind: GitObjectType, status: int, h: Handle)
    ensures CloseCount(CreateCalls(obj, kind, status), h) == if h == obj then 1 else 0
    ensures CreateCalls(obj, kind, status)[|CreateCalls(obj, kind, status)| - 1] == Close(obj)
  {
    var calls := CreateCalls(obj, kind, status);
    var init := calls[..|calls| - 1];
    assert init == [TypeQuery(obj)] + (if BuilderFor(kind).Some? then [ReadFields(obj, status)] else []);
    assert CloseCount(init, h) == 0 by {
      if BuilderFor(kind).Some? {
        assert init == [TypeQuery(obj)] + [ReadFields(obj, status)];
        CloseCountAppend([TypeQuery(obj)], ReadFields(obj, status), h);
        CloseCountAppend([], TypeQuery(obj), h);
      } else {
        CloseCountAppend([], TypeQuery(obj), h);
      }
    }
  }

  /** Id and Sha: two objects have the same Sha exactly when they have the same Id. */
  lemma ShaIdentifiesId(a: GitObject, b: GitObject)
    ensures a.Sha() == b.Sha() <==> a.id == b.id
  {
    ShaInjective(a.id, b.id);
  }

  /** Equals(GitObject) is reflexive, symmetric and transitive, and false on null. */
  lemma EqualsIsEquivalence(a: GitObject, b: GitObject, c: GitObject)
    ensures a.Equals(Some(a))
    ensures a.Equals(Some(b)) == b.Equals(Some(a))
    ensures a.Equals(Some(b)) && b.Equals(Some(c)) ==> a.Equals(Some(c))
    ensures !a.Equals(None)
  {
  }

  /** Equals(object) on a reference of another type is comparison with null. */
  lemma EqualsForeignIsNull(a: GitObject)
    ensures a.EqualsObject(ForeignRef) == a.Equals(None) == false
  {
  }

  /** `==` agrees with Equals on non-null operands, and `!=` is its negation. */
  lemma OperatorsAgree(left: Option<GitObject>, right: Option<GitObject>)
    ensures left.Some? ==> OpEquals(left, right) == left.value.Equals(right)
    ensures OpNotEquals(left, right) == !OpEquals(left, right)
  {
  }

  /** Equal objects have equal hash codes. */
  lemma HashConsistent(a: GitObject, b: GitObject)
    requires OpEquals(Some(a), Some(b))
    ensures a.GetHashCode() == b.GetHashCode()
  {
  }

  /** BuildFromPtr of one builder: copies the object's fields out through the
      native library (which may fail) and wraps them with `id`. */
  method BuildFromPtr(b: Builder, obj: Handle, id: ObjectId, lib: NativeLibrary) returns (r: Result<GitObject, Error>)
    requires lib.Valid() && obj in lib.open
    modifies lib
    ensures lib.Valid()
    ensures lib.open == old(lib.open) && lib.nextHandle == old(lib.nextHandle)
    ensures exists status :: lib.log == old(lib.log) + [ReadFields(obj, status)] && r == BuildResult(b, id, status)
  {
    var status := lib.ReadObjectFields(obj);
    match EnsureSuccess(status)
    case Pass => r := Success(Make(b, id));
    case Fail(e) => r := Failure(e);
  }

  /** CreateFromPtr: query the kind, dispatch to the one matching builder or
      throw InvalidOperation naming the kind and id, and in every case close
      `obj` last, exactly once. */
  method CreateFromPtr(obj: Handle, id: ObjectId, lib: NativeLibrary) returns (r: Result<GitObject, Error>)
    requires lib.Valid() && obj in lib.open
    modifies lib
    ensures lib.Valid()
    ensures lib.open == old(lib.open) - {obj}
    ensures var kind := lib.objects[old(lib.open)[obj]];
            exists status :: lib.log == old(lib.log) + CreateCalls(obj, kind, status)
                          && r == match BuilderFor(kind)
                                  case Some(b) => BuildResult(b, id, status)
                                  case None => Failure(InvalidOperation(kind, id))
    ensures CloseCount(lib.log, obj) == 1
  {
    ghost var kind0 := lib.objects[lib.open[obj]];
    ghost var log0 := lib.log;
    ghost var status := 0;
    // try
    var kind := lib.ObjectType(obj);
    match kind {
      case Commit => r := BuildFromPtr(CommitBuilder, obj, id, lib);
      case Tree => r := BuildFromPtr(TreeBuilder, obj, id, lib);
      case Tag => r := BuildFromPtr(TagAnnotationBuilder, obj, id, lib);
      case Blob => r := BuildFromPtr(BlobBuilder, obj, id, lib);
      case _ => r := Failure(InvalidOperation(kind, id));
    }
    if BuilderFor(kind).Some? {
      status := lib.log[|lib.log| - 1].status;
    }
    // finally
    lib.ObjectClose(obj);
    assert lib.log == log0 + CreateCalls(obj, kind0, status);
    CloseCountConcat(log0, CreateCalls(obj, kind0, status), obj);
    CreateCallsCloseOnce(obj, kind0, status, obj);
  }
}

/** Failure-compatible wrappers, the view of a .NET object reference through a
    typed cast, and the key-based equality helper shared by the value types. */
module Wrappers {

  datatype Option<+T> = None | Some(value: T)

  /** A result that is either a value or the exception that ended the call. */
  datatype Result<+R, +E> = Success(value: R) | Failure(error: E)

  /** The outcome of a call that returns nothing but may throw. */
  datatype Outcome<+E> = Pass | Fail(error: E)

  /** A reference of static type `object`, seen from the type T: null, a
      reference to a T, or a reference to an object of some other type. */
  datatype ObjRef<T> = NullRef | Ref(target: T) | ForeignRef

  /** The C# cast `obj as T`: a reference of another type becomes null. */
  function As<T>(obj: ObjRef<T>): (r: Option<T>)
    ensures r.Some? <==> obj.Ref?
    ensures obj.Ref? ==> r == Some(obj.target)
  {
    match obj
    case Ref(t) => Some(t)
    case _ => None
  }

  /** Equality by a selected key: an instance equals a non-null other
      exactly when their keys agree, and never equals null. */
  function KeyEquals<T, K(==)>(key: T -> K, instance: T, other: Option<T>): (r: bool)
    ensures other.None? ==> !r
    ensures other.Some? ==> (r <==> key(instance) == key(other.value))
    ensures other == Some(instance) ==> r
  {
    other.Some? && key(instance) == key(other.value)
  }

  /** Hash code by a selected key: only the key contributes. */
  function KeyHash<T, K>(key: T -> K, keyHash: K -> int, instance: T): int
  {
    keyHash(key(instance))
  }

  /** Order-sensitive combination of two hash codes (a stand-in: concrete
      hash values are not part of the model). */
  function CombineHash(seed: int, h: int): int
  {
    seed * 397 + h
  }
}

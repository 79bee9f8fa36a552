/** StatusEntry: an immutable (file path, file status) pair compared by both
    components. */
module StatusEntries {
  import opened Wrappers

  /** The FileStatus flag set, by its underlying integer value. */
  newtype FileStatus = int

  /** Both fields are set once by the constructor and only read afterwards. */
  datatype StatusEntry = StatusEntry(filePath: string, state: FileStatus)
  {
    /** Equals(StatusEntry): through the equality helper keyed on (FilePath, State). */
    function Equals(other: Option<StatusEntry>): (r: bool)
      ensures r <==> other.Some? && other.value.filePath == filePath && other.value.state == state
    {
      KeyEquals((e: StatusEntry) => (e.filePath, e.state), this, other)
    }

    /** Equals(object): `Equals(obj as StatusEntry)`. */
    function EqualsObject(obj: ObjRef<StatusEntry>): (r: bool)
      ensures r <==> obj.Ref? && obj.target.filePath == filePath && obj.target.state == state
    {
      Equals(As(obj))
    }

    /** GetHashCode: through the equality helper keyed on (FilePath, State),
        so it depends on the path and the state alone. */
    function GetHashCode(): (h: int)
      ensures h == CombineHash(StringHash(filePath), state as int)
    {
      KeyHash((e: StatusEntry) => (e.filePath, e.state),
              (k: (string, FileStatus)) => CombineHash(StringHash(k.0), k.1 as int),
              this)
    }
  }

  /** Stand-in for the runtime's string hash: a function of the characters only. */
  function StringHash(s: string): int
  {
    if s == [] then 0 else CombineHash(StringHash(s[..|s| - 1]), s[|s| - 1] as int)
  }

  /** `operator ==`, i.e. the static object.Equals(left, right). */
  function OpEquals(left: Option<StatusEntry>, right: Option<StatusEntry>): (r: bool)
    ensures r <==> left == right
  {
    if left.None? && right.None? then true
    else if left.None? || right.None? then false
    else left.value.EqualsObject(Ref(right.value))
  }

  /** `operator !=`: `!Equals(left, right)`. */
  function OpNotEquals(left: Option<StatusEntry>, right: Option<StatusEntry>): (r: bool)
    ensures r <==> left != right
  {
    !OpEquals(left, right)
  }

  /** Two entries are equal exactly when they are the same pair; a different
      path or a different state breaks equality. */
  lemma EqualsIffSamePair(a: StatusEntry, b: StatusEntry)
    ensures a.Equals(Some(b)) <==> a == b
    ensures a.filePath != b.filePath ==> !a.Equals(Some(b))
    ensures a.state != b.state ==> !a.Equals(Some(b))
  {
  }

  /** Equals(StatusEntry) is reflexive, symmetric and transitive, and false on null. */
  lemma EqualsIsEquivalence(a: StatusEntry, b: StatusEntry, c: StatusEntry)
    ensures a.Equals(Some(a))
    ensures a.Equals(Some(b)) == b.Equals(Some(a))
    ensures a.Equals(Some(b)) && b.Equals(Some(c)) ==> a.Equals(Some(c))
    ensures !a.Equals(None)
  {
  }

  /** Equals(object) on a reference of another type is comparison with null. */
  lemma EqualsForeignIsNull(a: StatusEntry)
    ensures a.EqualsObject(ForeignRef) == a.Equals(None) == false
  {
  }

  /** `==` agrees with Equals on non-null operands, and `!=` is its negation. */
  lemma OperatorsAgree(left: Option<StatusEntry>, right: Option<StatusEntry>)
    ensures left.Some? ==> OpEquals(left, right) == left.value.Equals(right)
    ensures OpNotEquals(left, right) == !OpEquals(left, right)
  {
  }

  /** Equal entries have equal hash codes. */
  lemma HashConsistent(a: StatusEntry, b: StatusEntry)
    requires a.Equals(Some(b))
    ensures a.GetHashCode() == b.GetHashCode()
  {
  }
}

/**
 * The registration record: six optional text fields in a fixed
 * declaration order, all absent in a fresh record, and the single
 * notion of an "empty" field shared by the merge and the completion test.
 */
module StudentRecord {
  import opened Wrappers

  /** The six slots of a record, one constructor per declared attribute. */
  datatype Field = Language | FirstName | LastName | City | Email | Course

  /** The attributes in the order the record declares them. */
  const Fields: seq<Field> := [Language, FirstName, LastName, City, Email, Course]

  /** Position of a field in the declaration order. */
  function Index(f: Field): (k: nat)
    ensures k < |Fields| && Fields[k] == f
  {
    match f
    case Language => 0
    case FirstName => 1
    case LastName => 2
    case City => 3
    case Email => 4
    case Course => 5
  }

  /** Index is the inverse of Fields: the declaration order has no repeats. */
  lemma IndexOfPosition(k: nat)
    requires k < |Fields|
    ensures Index(Fields[k]) == k
  {
  }

  /** The attribute name under which a field is looked up and reported. */
  function Name(f: Field): string
  {
    match f
    case Language => "language"
    case FirstName => "first_name"
    case LastName => "last_name"
    case City => "city"
    case Email => "email"
    case Course => "course"
  }

  /** Distinct fields have distinct attribute names. */
  lemma NameInjective(f: Field, g: Field)
    ensures Name(f) == Name(g) ==> f == g
  {
  }

  /** Every field occurs in the declaration order. */
  lemma FieldListed(f: Field)
    ensures f in Fields
  {
  }

  /**
   * A value that holds no information: absent or the empty string.
   * For optional text this is both Python falsiness (`not v`), which the
   * merge tests, and membership in `[None, "", 0]`, which the completion
   * test uses; no text value equals `0`.
   */
  predicate Empty(v: Option<string>)
  {
    v == None || v == Some("")
  }

  /** A registration record, one optional text value per field. */
  datatype Record = Record(
    language: Option<string>,
    firstName: Option<string>,
    lastName: Option<string>,
    city: Option<string>,
    email: Option<string>,
    course: Option<string>)

  /** The value a record holds for a field. */
  function Get(r: Record, f: Field): Option<string>
  {
    match f
    case Language => r.language
    case FirstName => r.firstName
    case LastName => r.lastName
    case City => r.city
    case Email => r.email
    case Course => r.course
  }

  /** A fresh record: every attribute defaults to absent. */
  const Initial: Record := Record(None, None, None, None, None, None)

  /** A record is complete when none of its fields is empty. */
  predicate Complete(r: Record)
  {
    forall f :: !Empty(Get(r, f))
  }

  /** The fields that hold a value. */
  function Filled(r: Record): (s: set<Field>)
    ensures forall f :: f in s <==> !Empty(Get(r, f))
  {
    forall f ensures f in Fields { FieldListed(f); }
    set f | f in Fields && !Empty(Get(r, f))
  }

  /** A fresh record holds nothing, so it is not complete. */
  lemma InitialIsEmpty()
    ensures forall f :: Empty(Get(Initial, f))
    ensures Filled(Initial) == {}
    ensures !Complete(Initial)
  {
    assert Empty(Get(Initial, Language));
  }
}

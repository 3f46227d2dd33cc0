/**
 * The records the students directory works on: a student as the server
 * returns it, and the draft the editor dialog holds.
 */
module Records {

  datatype Option<T> = None | Some(value: T)

  /** The six text fields the editor dialog offers, by their input `name`. */
  datatype Field = Name | RollNumber | ContactNumber | BloodGroup | Email | Address

  /** The free-text part of a record; every field is an uninterpreted string. */
  datatype Fields = Fields(
    name: string,
    rollNumber: string,
    contactNumber: string,
    bloodGroup: string,
    email: string,
    address: string)

  /** The value the editor is reset to for a new student: six empty strings. */
  const EmptyFields := Fields("", "", "", "", "", "")

  /** A student as listed by the server: its server-assigned `_id` and its fields. */
  datatype Student = Student(id: string, fields: Fields)

  /**
   * The editor's `form`.  It is either the blank form (no `_id`) or a copy of a
   * listed student, which carries that student's `_id` along with the fields.
   */
  datatype Draft = Draft(id: Option<string>, fields: Fields)

  const BlankDraft := Draft(None, EmptyFields)

  /** The draft the editor holds after `setForm(student)`. */
  function DraftOf(st: Student): Draft
  {
    Draft(Some(st.id), st.fields)
  }

  /** Reads one field, as `form[name]` does for the six input names. */
  function FieldValue(f: Fields, k: Field): string
  {
    match k
    case Name => f.name
    case RollNumber => f.rollNumber
    case ContactNumber => f.contactNumber
    case BloodGroup => f.bloodGroup
    case Email => f.email
    case Address => f.address
  }

  /** `{ ...form, [name]: value }`: the named field takes the value, the rest are kept. */
  function WithField(f: Fields, k: Field, v: string): (r: Fields)
    ensures FieldValue(r, k) == v
    ensures forall j :: j != k ==> FieldValue(r, j) == FieldValue(f, j)
  {
    match k
    case Name => f.(name := v)
    case RollNumber => f.(rollNumber := v)
    case ContactNumber => f.(contactNumber := v)
    case BloodGroup => f.(bloodGroup := v)
    case Email => f.(email := v)
    case Address => f.(address := v)
  }

  /** Two field sets that agree on every field are the same. */
  lemma FieldsExtensional(f: Fields, g: Fields)
    requires forall k :: FieldValue(f, k) == FieldValue(g, k)
    ensures f == g
  {
    assert FieldValue(f, Name) == FieldValue(g, Name);
    assert FieldValue(f, RollNumber) == FieldValue(g, RollNumber);
    assert FieldValue(f, ContactNumber) == FieldValue(g, ContactNumber);
    assert FieldValue(f, BloodGroup) == FieldValue(g, BloodGroup);
    assert FieldValue(f, Email) == FieldValue(g, Email);
    assert FieldValue(f, Address) == FieldValue(g, Address);
  }

  /** Writing a field's own value back changes nothing. */
  lemma WithFieldSameValue(f: Fields, k: Field)
    ensures WithField(f, k, FieldValue(f, k)) == f
  {
  }

  /** Of two writes to the same field, the later one wins. */
  lemma WithFieldOverwrite(f: Fields, k: Field, v: string, w: string)
    ensures WithField(WithField(f, k, v), k, w) == WithField(f, k, w)
  {
  }

  /** Writes to different fields commute. */
  lemma WithFieldCommute(f: Fields, j: Field, v: string, k: Field, w: string)
    requires j != k
    ensures WithField(WithField(f, j, v), k, w) == WithField(WithField(f, k, w), j, v)
  {
  }
}

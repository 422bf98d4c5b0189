/**
 * Rider naming helpers of src/api/FirstViewClient.ts: `getStudentName` and
 * `getStudentId`, which the map screen uses as the grouping key of a rider.
 */
module Students {
  import opened Wrappers
  import Decimal

  /** A JSON text field as JavaScript sees it: absent, `null`, or a string. */
  datatype JsText = Undefined | Null | Str(s: string)

  /** The fields of `Student` the helpers read; `id` is `None` when absent or `null`. */
  datatype Student = Student(id: Option<int>, firstName: JsText, lastName: JsText)

  /** The one field of an ETA `Result` record the helpers read. */
  datatype EtaRecord = EtaRecord(student: Option<Student>)

  /** String concatenation's conversion `ToString` of a text field. */
  function JsToString(t: JsText): (r: string)
    ensures t.Str? ==> r == t.s
    ensures t.Undefined? ==> r == "undefined"
    ensures t.Null? ==> r == "null"
  {
    match t
    case Undefined => "undefined"
    case Null => "null"
    case Str(s) => s
  }

  function FirstName(result: EtaRecord): JsText {
    if result.student.Some? then result.student.value.firstName else Undefined
  }

  function LastName(result: EtaRecord): JsText {
    if result.student.Some? then result.student.value.lastName else Undefined
  }

  /**
   * `getStudentName(result)`: first name, a space, last name. Absent parts
   * are not replaced by empty text: JavaScript writes them as "undefined".
   */
  function GetStudentName(result: EtaRecord): (name: string)
    ensures result.student.None? ==> name == "undefined undefined"
    ensures result.student.Some? ==>
      name == JsToString(result.student.value.firstName) + " " + JsToString(result.student.value.lastName)
  {
    JsToString(FirstName(result)) + " " + JsToString(LastName(result))
  }

  /**
   * `getStudentId(result)`: `student?.id?.toString() || getStudentName(result)`.
   * The decimal text of a number is never empty (id 0 gives "0"), so the name
   * is used exactly when the student or its id is missing.
   */
  function GetStudentId(result: EtaRecord): (key: string)
    ensures result.student.Some? && result.student.value.id.Some? ==>
      Decimal.ParseInt(key) == Some(result.student.value.id.value)
    ensures result.student.Some? && result.student.value.id.Some? ==>
      key == Decimal.IntToDecimal(result.student.value.id.value)
    ensures result.student.None? || result.student.value.id.None? ==> key == GetStudentName(result)
  {
    var idText := if result.student.Some? && result.student.value.id.Some?
                  then Some(Decimal.IntToDecimal(result.student.value.id.value))
                  else None;
    if idText.Some? && idText.value != "" then idText.value else GetStudentName(result)
  }

  /** Two records with present ids share a key exactly when their ids are equal. */
  lemma SameKeyIffSameId(a: EtaRecord, b: EtaRecord)
    requires a.student.Some? && a.student.value.id.Some?
    requires b.student.Some? && b.student.value.id.Some?
    ensures GetStudentId(a) == GetStudentId(b) <==> a.student.value.id == b.student.value.id
  {
  }

  /**
   * A key made from an id never equals a key made from a name: a name always
   * holds a space and decimal text never does, so the fallback cannot merge a
   * rider without an id into a rider with one.
   */
  lemma IdKeyIsNeverNameKey(a: EtaRecord, b: EtaRecord)
    requires a.student.Some? && a.student.value.id.Some?
    requires b.student.None? || b.student.value.id.None?
    ensures GetStudentId(a) != GetStudentId(b)
  {
    var name := GetStudentName(b);
    var k := |JsToString(FirstName(b))|;
    assert name[k] == ' ';
    var i := a.student.value.id.value;
    var digits := Decimal.NatToDecimal(if i < 0 then -i else i);
    assert Decimal.AllDigits(digits);
    assert forall j :: 0 <= j < |GetStudentId(a)| ==> GetStudentId(a)[j] != ' ';
  }
}

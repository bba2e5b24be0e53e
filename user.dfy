/**
 * The `User` record of the service and its field validation (`User.Validate`,
 * built from ozzo-validation rules).
 */
module Users {

  /** The four data fields of a user: what Create inserts and Update `$set`s. */
  datatype Fields = Fields(firstName: string, lastName: string, gender: string, age: int)

  /**
   * The Go struct `User`: the `ID` string (bson `_id,omitempty`) and the four
   * data fields, grouped here because the store and Update treat them as a unit.
   */
  datatype User = User(id: string, fields: Fields)

  /** The genders accepted by the `In` rule. */
  const Genders: seq<string> := ["male", "female", "others"]

  /** ozzo `Required` on a string: the value must not be empty. */
  predicate Required(s: string) {
    s != []
  }

  /** ozzo `Min(threshold)` on an int: the zero value counts as empty and is skipped. */
  predicate Min(v: int, threshold: int) {
    v == 0 || v >= threshold
  }

  /** ozzo `In(elements...)` on a string: the empty string is skipped. */
  predicate In(v: string, elements: seq<string>) {
    v == [] || v in elements
  }

  /**
   * `User.Validate`: `ValidateStruct` succeeds exactly when every field rule
   * passes. The ID is not checked. Because `In` skips empty values, an empty
   * gender is accepted.
   */
  function Validate(u: User): (ok: bool)
    ensures ok <==>
      && u.fields.firstName != ""
      && u.fields.lastName != ""
      && u.fields.age >= 0
      && (u.fields.gender == "" || u.fields.gender == "male"
          || u.fields.gender == "female" || u.fields.gender == "others")
  {
    && Required(u.fields.firstName)
    && Required(u.fields.lastName)
    && Min(u.fields.age, 0)
    && In(u.fields.gender, Genders)
  }

  /** The sample user checked at start-up passes; the rejected inputs fail. */
  lemma ValidationExamples()
    ensures Validate(User("", Fields("sam", "chan", "male", 20)))
    ensures !Validate(User("", Fields("", "chan", "male", 20)))
    ensures !Validate(User("", Fields("sam", "chan", "unknown", 20)))
    ensures !Validate(User("", Fields("sam", "chan", "male", -1)))
    ensures Validate(User("", Fields("sam", "chan", "", 0)))
  {
  }
}

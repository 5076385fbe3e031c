/** The declarative form description: field types, field and form records, and
    the one concrete form the application renders. */
module Schema {
  import opened JsValues

  /** The closed set of field types. */
  datatype FieldType = Text | Email | Number | Select | Checkbox | Group

  /** The string literal that names each field type. */
  function TypeName(t: FieldType): string {
    match t
    case Text => "text"
    case Email => "email"
    case Number => "number"
    case Select => "select"
    case Checkbox => "checkbox"
    case Group => "group"
  }

  /** Reads a field type from its literal; anything else is not a field type. */
  function ParseType(s: string): (r: Option<FieldType>)
    ensures r.Some? <==> s in {"text", "email", "number", "select", "checkbox", "group"}
    ensures r.Some? ==> TypeName(r.value) == s
  {
    if s == "text" then Some(Text)
    else if s == "email" then Some(Email)
    else if s == "number" then Some(Number)
    else if s == "select" then Some(Select)
    else if s == "checkbox" then Some(Checkbox)
    else if s == "group" then Some(Group)
    else None
  }

  /** A visibility condition on another field. `mustExist` is the optional
      `exists` flag (absent reads as false); `equals` is the optional value to
      compare with, `Undefined` when it is not given. */
  datatype ShowIf = ShowIf(field: string, mustExist: bool, equals: Prim)

  /** One field; `caption` is its label. The optional flags `required`,
      `repeatable` and `asyncOptions` read as false when absent; `fields` is the
      optional list of sub-fields. */
  datatype FieldSchema = FieldSchema(
    id: string,
    caption: string,
    kind: FieldType,
    required: bool,
    showIf: Option<ShowIf>,
    fields: Option<seq<FieldSchema>>,
    repeatable: bool,
    asyncOptions: bool)

  datatype FormSchema = FormSchema(id: string, title: string, fields: seq<FieldSchema>)

  /** The ids of a list of fields. */
  function Ids(fields: seq<FieldSchema>): set<string> {
    set i | 0 <= i < |fields| :: fields[i].id
  }

  /** No two fields of the list share an id. The source never checks this. */
  predicate DistinctIds(fields: seq<FieldSchema>) {
    forall i, j :: 0 <= i < j < |fields| ==> fields[i].id != fields[j].id
  }

  /** A field with no condition, no sub-fields and no flags but `required`. */
  function Plain(id: string, caption: string, kind: FieldType, required: bool): FieldSchema {
    FieldSchema(id, caption, kind, required, None, None, false, false)
  }

  /** The single sub-field of the phone-number group. */
  const PhoneField: FieldSchema := Plain("phone", "Phone", Text, true)

  /** The application's form. */
  const UserForm: FormSchema := FormSchema(
    "userForm",
    "User Information Form",
    [
      Plain("name", "Full Name", Text, true),
      Plain("email", "Email Address", Email, true),
      FieldSchema("age", "Age", Number, false, Some(ShowIf("email", true, Undefined)), None, false, false),
      FieldSchema("country", "Country", Select, true, None, None, false, true),
      FieldSchema("phones", "Phone Numbers", Group, false, None, Some([PhoneField]), true, false)
    ])

  /** Naming a field type and reading the name back gives the same type, and no
      two types share a name. */
  lemma TypeNameRoundTrip(t: FieldType, u: FieldType)
    ensures ParseType(TypeName(t)) == Some(t)
    ensures TypeName(t) == TypeName(u) ==> t == u
  {
  }

  /** The top-level ids of the form, in order, and they are pairwise distinct. */
  lemma UserFormIds()
    ensures |UserForm.fields| == 5
    ensures UserForm.fields[0].id == "name" && UserForm.fields[1].id == "email"
    ensures UserForm.fields[2].id == "age" && UserForm.fields[3].id == "country"
    ensures UserForm.fields[4].id == "phones"
    ensures DistinctIds(UserForm.fields)
  {
  }

  /** Only `age` carries a condition: it needs `email`, the id of an earlier field,
      to be truthy, and it compares with no value. */
  lemma UserFormShowIf()
    ensures forall i :: 0 <= i < |UserForm.fields| ==>
      (UserForm.fields[i].showIf.Some? <==> UserForm.fields[i].id == "age")
    ensures UserForm.fields[2].showIf == Some(ShowIf("email", true, Undefined))
    ensures exists j :: 0 <= j < 2 && UserForm.fields[j].id == UserForm.fields[2].showIf.value.field
  {
    assert UserForm.fields[1].id == "email";
  }

  /** Only `phones` is a group: repeatable, not required, with one required text
      sub-field `phone`. */
  lemma UserFormGroups()
    ensures forall i :: 0 <= i < |UserForm.fields| ==>
      (UserForm.fields[i].kind == Group <==> UserForm.fields[i].id == "phones")
    ensures UserForm.fields[4].repeatable && !UserForm.fields[4].required
    ensures UserForm.fields[4].fields == Some([PhoneField])
    ensures PhoneField.id == "phone" && PhoneField.kind == Text && PhoneField.required
  {
  }

  /** Only `country`, a select field, has its options filled out of band. */
  lemma UserFormAsyncOptions()
    ensures forall i :: 0 <= i < |UserForm.fields| ==>
      (UserForm.fields[i].asyncOptions <==> UserForm.fields[i].id == "country")
    ensures UserForm.fields[3].kind == Select
  {
  }

  /** The property names every plain object inherits from `Object.prototype`. */
  const InheritedNames: set<string> := {
    "constructor", "hasOwnProperty", "isPrototypeOf", "propertyIsEnumerable",
    "toLocaleString", "toString", "valueOf", "__proto__",
    "__defineGetter__", "__defineSetter__", "__lookupGetter__", "__lookupSetter__"}

  /** No id of the application's form, top-level or sub-field, names an inherited
      property, so reading any of them from a plain object that lacks it gives
      `undefined`. */
  lemma UserFormAvoidsInheritedNames()
    ensures forall i :: 0 <= i < |UserForm.fields| ==> UserForm.fields[i].id !in InheritedNames
    ensures PhoneField.id !in InheritedNames
  {
  }
}

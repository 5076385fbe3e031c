/** Validation of form data against a schema: an error record keyed by
    top-level field id. Rules write by plain assignment, so for one field the
    last rule that fires decides the message. Visibility conditions play no part. */
module Validator {
  import opened JsValues
  import opened Schema
  import opened Writes

  /** A field's entry: a message, or for a repeatable group one record per item
      (sub-field id to message). */
  datatype ErrorEntry = Message(text: string) | PerItem(items: seq<map<string, string>>)

  type Errors = map<string, ErrorEntry>

  /** The addresses the uniqueness check treats as already registered. */
  const TakenEmails: seq<string> := ["test@gmail.com", "demo@gmail.com"]

  const PhoneMessage := "Phone number must be 10 digits"
  const InvalidEmailMessage := "Invalid email address"
  const TakenEmailMessage := "Email already registered"
  const NumberMessage := "Must be a number"
  const AtLeastOneMessage := "At least one entry is required"

  function RequiredMessage(caption: string): string {
    caption + " is required"
  }

  /** The fields the group branch handles; every other field, a group type
      without `repeatable` or without `fields` included, gets the regular rules. */
  predicate IsRepeatableGroup(f: FieldSchema) {
    f.kind == Group && f.repeatable && f.fields.Some?
  }

  // ---------------------------------------------------------------------------
  // Specification

  /** The message the three sub-field rules leave for `sub` in one item: required,
      then phone shape, then email shape, each replacing the one before. An email
      sub-field holding a truthy non-string throws, since only strings have
      `includes`. Sub-fields get no uniqueness check. */
  function SubFieldOutcome(sub: FieldSchema, item: Item): Run<Option<string>> {
    var v := ItemGet(item, sub.id);
    var afterRequired := if sub.required && !PrimTruthy(v) then Some(RequiredMessage(sub.caption)) else None;
    var afterPhone :=
      if sub.id == "phone" && PrimTruthy(v) && !MatchesPhonePattern(v) then Some(PhoneMessage) else afterRequired;
    if sub.kind == Email && PrimTruthy(v) then
      if v.Str? then Ok(if '@' !in v.s then Some(InvalidEmailMessage) else afterPhone)
      else TypeError
    else Ok(afterPhone)
  }

  function SubFieldWrites(subs: seq<FieldSchema>, item: Item): (ws: seq<Write<string>>)
    ensures |ws| == |subs|
  {
    seq(|subs|, k requires 0 <= k < |subs| => Write(subs[k].id, SubFieldOutcome(subs[k], item)))
  }

  /** The error record of one group item. */
  function ItemErrors(subs: seq<FieldSchema>, item: Item): Run<map<string, string>> {
    Apply(SubFieldWrites(subs, item), map[])
  }

  /** The item records of `rows`, in item order, appended to `acc`. */
  function RowErrors(subs: seq<FieldSchema>, rows: seq<Item>, acc: seq<map<string, string>>)
    : Run<seq<map<string, string>>>
    decreases |rows|
  {
    if rows == [] then Ok(acc)
    else
      match ItemErrors(subs, rows[0])
      case TypeError => TypeError
      case Ok(m) => RowErrors(subs, rows[1..], acc + [m])
  }

  predicate SomeItemHasErrors(list: seq<map<string, string>>) {
    exists j :: 0 <= j < |list| && |list[j]| > 0
  }

  /** The email-shape and uniqueness rules for a truthy value of an email field.
      An array of objects never includes "@"; a number or a boolean has no
      `includes` and throws. */
  function EmailOutcome(v: Value, prior: Option<ErrorEntry>): Run<Option<ErrorEntry>> {
    match v
    case Rows(_) => Ok(Some(Message(InvalidEmailMessage)))
    case Scalar(Str(s)) =>
      Ok(if '@' !in s then Some(Message(InvalidEmailMessage))
         else if s in TakenEmails then Some(Message(TakenEmailMessage))
         else prior)
    case Scalar(_) => TypeError
  }

  /** The entry the rules for top-level field `f` leave, given its value `v`.
      A repeatable group that is falsy or empty gets the required-group message
      or nothing; one holding a truthy non-array throws (`forEach`); otherwise its
      item records are attached only if some item has an error. Any other field
      gets required, then email, then number, each replacing the one before. */
  function FieldOutcome(f: FieldSchema, v: Value, numeric: string -> bool): Run<Option<ErrorEntry>> {
    if IsRepeatableGroup(f) then
      if !Truthy(v) || (v.Rows? && |v.rows| == 0) then
        Ok(if f.required then Some(Message(AtLeastOneMessage)) else None)
      else if v.Scalar? then TypeError
      else
        match RowErrors(f.fields.value, v.rows, [])
        case TypeError => TypeError
        case Ok(list) => Ok(if SomeItemHasErrors(list) then Some(PerItem(list)) else None)
    else
      var afterRequired := if f.required && !Truthy(v) then Some(Message(RequiredMessage(f.caption))) else None;
      var afterEmail := if f.kind == Email && Truthy(v) then EmailOutcome(v, afterRequired) else Ok(afterRequired);
      match afterEmail
      case TypeError => TypeError
      case Ok(w) =>
        Ok(if f.kind == Number && Truthy(v) && NumberIsNaN(v, numeric) then Some(Message(NumberMessage)) else w)
  }

  function FieldWrites(fields: seq<FieldSchema>, data: FormData, numeric: string -> bool)
    : (ws: seq<Write<ErrorEntry>>)
    ensures |ws| == |fields|
  {
    seq(|fields|, i requires 0 <= i < |fields| =>
      Write(fields[i].id, FieldOutcome(fields[i], Get(data, fields[i].id), numeric)))
  }

  /** The report `validateForm` resolves to, or the TypeError it rejects with. */
  function FormErrors(schema: FormSchema, data: FormData, numeric: string -> bool): Run<Errors> {
    Apply(FieldWrites(schema.fields, data, numeric), map[])
  }

  // ---------------------------------------------------------------------------
  // The validator, with its loops

  method ValidateItem(subs: seq<FieldSchema>, item: Item) returns (r: Run<map<string, string>>)
    ensures r == ItemErrors(subs, item)
  {
    var itemErrors: map<string, string> := map[];
    ghost var ws := SubFieldWrites(subs, item);
    var k := 0;
    while k < |subs|
      invariant 0 <= k <= |subs|
      invariant Apply(ws, map[]) == Apply(ws[k..], itemErrors)
    {
      var sub := subs[k];
      var subValue := ItemGet(item, sub.id);
      ghost var before := itemErrors;
      if sub.required && !PrimTruthy(subValue) {
        itemErrors := itemErrors[sub.id := RequiredMessage(sub.caption)];
      }
      if sub.id == "phone" && PrimTruthy(subValue) && !MatchesPhonePattern(subValue) {
        itemErrors := itemErrors[sub.id := PhoneMessage];
      }
      if sub.kind == Email && PrimTruthy(subValue) {
        if !subValue.Str? {
          return TypeError;
        }
        if '@' !in subValue.s {
          itemErrors := itemErrors[sub.id := InvalidEmailMessage];
        }
      }
      assert ws[k] == Write(sub.id, SubFieldOutcome(sub, item));
      assert itemErrors == Put(before, sub.id, SubFieldOutcome(sub, item).value);
      assert ws[k..][1..] == ws[k + 1..];
      k := k + 1;
    }
    r := Ok(itemErrors);
  }

  method ValidateRows(subs: seq<FieldSchema>, rows: seq<Item>) returns (r: Run<seq<map<string, string>>>)
    ensures r == RowErrors(subs, rows, [])
  {
    var groupErrors: seq<map<string, string>> := [];
    var j := 0;
    while j < |rows|
      invariant 0 <= j <= |rows|
      invariant RowErrors(subs, rows, []) == RowErrors(subs, rows[j..], groupErrors)
    {
      var itemErrors := ValidateItem(subs, rows[j]);
      if itemErrors.TypeError? {
        return TypeError;
      }
      assert rows[j..][1..] == rows[j + 1..];
      groupErrors := groupErrors + [itemErrors.value];
      j := j + 1;
    }
    r := Ok(groupErrors);
  }

  /** `validateForm`: the top-level fields in schema order. */
  method ValidateForm(schema: FormSchema, data: FormData, numeric: string -> bool) returns (r: Run<Errors>)
    ensures r == FormErrors(schema, data, numeric)
  {
    var errors: Errors := map[];
    ghost var ws := FieldWrites(schema.fields, data, numeric);
    var i := 0;
    while i < |schema.fields|
      invariant 0 <= i <= |schema.fields|
      invariant Apply(ws, map[]) == Apply(ws[i..], errors)
    {
      var field := schema.fields[i];
      var value := Get(data, field.id);
      if field.kind == Group && field.repeatable && field.fields.Some? {
        if !Truthy(value) || (value.Rows? && |value.rows| == 0) {
          if field.required {
            errors := errors[field.id := Message(AtLeastOneMessage)];
          }
        } else if value.Scalar? {
          return TypeError;
        } else {
          var groupErrors := ValidateRows(field.fields.value, value.rows);
          if groupErrors.TypeError? {
            return TypeError;
          }
          if SomeItemHasErrors(groupErrors.value) {
            errors := errors[field.id := PerItem(groupErrors.value)];
          }
        }
      } else {
        if field.required && !Truthy(value) {
          errors := errors[field.id := Message(RequiredMessage(field.caption))];
        }
        if field.kind == Email && Truthy(value) {
          match value
          case Rows(_) =>
            errors := errors[field.id := Message(InvalidEmailMessage)];
          case Scalar(Str(s)) =>
            if '@' !in s {
              errors := errors[field.id := Message(InvalidEmailMessage)];
            } else if s in TakenEmails {
              errors := errors[field.id := Message(TakenEmailMessage)];
            }
          case Scalar(_) =>
            return TypeError;
        }
        if field.kind == Number && Truthy(value) && NumberIsNaN(value, numeric) {
          errors := errors[field.id := Message(NumberMessage)];
        }
      }
      assert ws[i..][1..] == ws[i + 1..];
      i := i + 1;
    }
    r := Ok(errors);
  }
}

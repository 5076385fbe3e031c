/** What the validator's report says, field by field, and the report on a few
    concrete inputs of the application's form. */
module ValidatorProperties {
  import opened JsValues
  import opened Schema
  import opened Writes
  import opened Validator

  lemma FieldWritesKeys(fields: seq<FieldSchema>, data: FormData, numeric: string -> bool)
    ensures Keys(FieldWrites(fields, data, numeric)) == Ids(fields)
    ensures DistinctIds(fields) ==> DistinctKeys(FieldWrites(fields, data, numeric))
  {
    var ws := FieldWrites(fields, data, numeric);
    assert forall i :: 0 <= i < |fields| ==> ws[i].key == fields[i].id;
  }

  lemma SubFieldWritesKeys(subs: seq<FieldSchema>, item: Item)
    ensures DistinctIds(subs) ==> DistinctKeys(SubFieldWrites(subs, item))
  {
    var ws := SubFieldWrites(subs, item);
    assert forall k :: 0 <= k < |subs| ==> ws[k].key == subs[k].id;
  }

  /** Every key of a report is the id of a top-level field. */
  lemma ReportKeysAreFieldIds(schema: FormSchema, data: FormData, numeric: string -> bool)
    ensures FormErrors(schema, data, numeric).Ok? ==>
      forall k :: k in FormErrors(schema, data, numeric).value ==>
        exists i :: 0 <= i < |schema.fields| && schema.fields[i].id == k
  {
    ApplyKeys(FieldWrites(schema.fields, data, numeric), map[]);
    FieldWritesKeys(schema.fields, data, numeric);
  }

  /** The validator rejects exactly when the rules of some field throw. */
  lemma ReportThrows(schema: FormSchema, data: FormData, numeric: string -> bool)
    ensures FormErrors(schema, data, numeric) == TypeError <==>
      exists i :: 0 <= i < |schema.fields| &&
        FieldOutcome(schema.fields[i], Get(data, schema.fields[i].id), numeric) == TypeError
  {
    var ws := FieldWrites(schema.fields, data, numeric);
    ApplyThrows(ws, map[]);
    assert forall i :: 0 <= i < |ws| ==>
      ws[i].outcome == FieldOutcome(schema.fields[i], Get(data, schema.fields[i].id), numeric);
  }

  /** With distinct top-level ids, the entry of a field is what its own rules
      leave: no other field can overwrite it. */
  lemma ReportEntry(schema: FormSchema, data: FormData, numeric: string -> bool, i: nat)
    requires DistinctIds(schema.fields) && i < |schema.fields|
    requires FormErrors(schema, data, numeric).Ok?
    ensures var f := schema.fields[i];
      var o := FieldOutcome(f, Get(data, f.id), numeric);
      var e := FormErrors(schema, data, numeric).value;
      && o.Ok?
      && (f.id in e <==> o.value.Some?)
      && (f.id in e ==> e[f.id] == o.value.value)
  {
    FieldWritesKeys(schema.fields, data, numeric);
    ApplyEntry(FieldWrites(schema.fields, data, numeric), map[], i);
  }

  /** A required regular field with a falsy value gets exactly the required
      message: the email and number rules only fire on truthy values. */
  lemma RequiredFieldReported(schema: FormSchema, data: FormData, numeric: string -> bool, i: nat)
    requires DistinctIds(schema.fields) && i < |schema.fields|
    requires !IsRepeatableGroup(schema.fields[i]) && schema.fields[i].required
    requires !Truthy(Get(data, schema.fields[i].id))
    requires FormErrors(schema, data, numeric).Ok?
    ensures var f := schema.fields[i]; var e := FormErrors(schema, data, numeric).value;
      f.id in e && e[f.id] == Message(RequiredMessage(f.caption))
  {
    ReportEntry(schema, data, numeric, i);
  }

  /** An email field holding a string: with "@" it has an entry exactly when the
      address is one of the two taken ones, and the entry says so; a non-empty
      string without "@" is an invalid address. */
  lemma EmailFieldReported(schema: FormSchema, data: FormData, numeric: string -> bool, i: nat, s: string)
    requires DistinctIds(schema.fields) && i < |schema.fields|
    requires schema.fields[i].kind == Email
    requires Get(data, schema.fields[i].id) == Scalar(Str(s))
    requires FormErrors(schema, data, numeric).Ok?
    ensures var id := schema.fields[i].id; var e := FormErrors(schema, data, numeric).value;
      && ('@' in s ==> (id in e <==> s == "test@gmail.com" || s == "demo@gmail.com"))
      && ('@' in s && id in e ==> e[id] == Message(TakenEmailMessage))
      && (s != "" && '@' !in s ==> id in e && e[id] == Message(InvalidEmailMessage))
  {
    ReportEntry(schema, data, numeric, i);
  }

  /** An email field holding an array has the invalid-address message: an array
      of records never includes "@". */
  lemma EmailArrayReported(schema: FormSchema, data: FormData, numeric: string -> bool, i: nat)
    requires DistinctIds(schema.fields) && i < |schema.fields|
    requires schema.fields[i].kind == Email && Get(data, schema.fields[i].id).Rows?
    requires FormErrors(schema, data, numeric).Ok?
    ensures var id := schema.fields[i].id; var e := FormErrors(schema, data, numeric).value;
      id in e && e[id] == Message(InvalidEmailMessage)
  {
    ReportEntry(schema, data, numeric, i);
  }

  /** A number field with a truthy value has an entry exactly when the value does
      not convert to a number. */
  lemma NumberFieldReported(schema: FormSchema, data: FormData, numeric: string -> bool, i: nat)
    requires DistinctIds(schema.fields) && i < |schema.fields|
    requires schema.fields[i].kind == Number && Truthy(Get(data, schema.fields[i].id))
    requires FormErrors(schema, data, numeric).Ok?
    ensures var id := schema.fields[i].id; var e := FormErrors(schema, data, numeric).value;
      && (id in e <==> NumberIsNaN(Get(data, id), numeric))
      && (id in e ==> e[id] == Message(NumberMessage))
  {
    ReportEntry(schema, data, numeric, i);
  }

  /** A repeatable group that is absent, falsy or empty has the required-group
      message when it is required, and no entry otherwise. */
  lemma EmptyGroupReported(schema: FormSchema, data: FormData, numeric: string -> bool, i: nat)
    requires DistinctIds(schema.fields) && i < |schema.fields|
    requires IsRepeatableGroup(schema.fields[i])
    requires !Truthy(Get(data, schema.fields[i].id)) || Get(data, schema.fields[i].id) == Rows([])
    requires FormErrors(schema, data, numeric).Ok?
    ensures var f := schema.fields[i]; var e := FormErrors(schema, data, numeric).value;
      && (f.required ==> f.id in e && e[f.id] == Message(AtLeastOneMessage))
      && (!f.required ==> f.id !in e)
  {
    ReportEntry(schema, data, numeric, i);
  }

  /** The item records come one per row, in row order, after `acc`. */
  lemma {:induction false} RowErrorsShape(subs: seq<FieldSchema>, rows: seq<Item>, acc: seq<map<string, string>>)
    ensures RowErrors(subs, rows, acc).Ok? <==> forall j :: 0 <= j < |rows| ==> ItemErrors(subs, rows[j]).Ok?
    ensures RowErrors(subs, rows, acc).Ok? ==>
      var r := RowErrors(subs, rows, acc).value;
      && |r| == |acc| + |rows|
      && r[..|acc|] == acc
      && forall j :: 0 <= j < |rows| ==> ItemErrors(subs, rows[j]) == Ok(r[|acc| + j])
  {
    if rows != [] {
      var first := ItemErrors(subs, rows[0]);
      if first.Ok? {
        RowErrorsShape(subs, rows[1..], acc + [first.value]);
        assert forall j :: 1 <= j < |rows| ==> rows[1..][j - 1] == rows[j];
        if RowErrors(subs, rows, acc).Ok? {
          var r := RowErrors(subs, rows, acc).value;
          assert r[..|acc| + 1][..|acc|] == r[..|acc|];
        }
      }
    }
  }

  /** A non-empty repeatable group: its entry, when present, holds one record per
      item in item order, and it is present exactly when some item record is
      non-empty. */
  lemma GroupReported(schema: FormSchema, data: FormData, numeric: string -> bool, i: nat, rows: seq<Item>)
    requires DistinctIds(schema.fields) && i < |schema.fields|
    requires IsRepeatableGroup(schema.fields[i])
    requires Get(data, schema.fields[i].id) == Rows(rows) && |rows| > 0
    requires FormErrors(schema, data, numeric).Ok?
    ensures var f := schema.fields[i]; var subs := f.fields.value; var e := FormErrors(schema, data, numeric).value;
      && (forall j :: 0 <= j < |rows| ==> ItemErrors(subs, rows[j]).Ok?)
      && (f.id in e <==> exists j :: 0 <= j < |rows| && |ItemErrors(subs, rows[j]).value| > 0)
      && (f.id in e ==>
            e[f.id].PerItem? && |e[f.id].items| == |rows| &&
            forall j :: 0 <= j < |rows| ==> ItemErrors(subs, rows[j]) == Ok(e[f.id].items[j]))
  {
    ReportEntry(schema, data, numeric, i);
    var subs := schema.fields[i].fields.value;
    RowErrorsShape(subs, rows, []);
    var o := RowErrors(subs, rows, []);
    assert o.Ok?;
    var list := o.value;
    assert forall j :: 0 <= j < |rows| ==> ItemErrors(subs, rows[j]) == Ok(list[j]);
    assert SomeItemHasErrors(list) <==> exists j :: 0 <= j < |rows| && |ItemErrors(subs, rows[j]).value| > 0;
  }

  /** With distinct sub-field ids, the entry of a sub-field in an item record is
      what its own rules leave. */
  lemma ItemEntry(subs: seq<FieldSchema>, item: Item, k: nat)
    requires DistinctIds(subs) && k < |subs|
    requires ItemErrors(subs, item).Ok?
    ensures var o := SubFieldOutcome(subs[k], item); var m := ItemErrors(subs, item).value;
      && o.Ok?
      && (subs[k].id in m <==> o.value.Some?)
      && (subs[k].id in m ==> m[subs[k].id] == o.value.value)
  {
    SubFieldWritesKeys(subs, item);
    ApplyEntry(SubFieldWrites(subs, item), map[], k);
  }

  /** A string holding "@" is never ten digits. */
  lemma AtSignFailsPhonePattern(s: string)
    requires '@' in s
    ensures !MatchesPhonePattern(Str(s))
  {
    var i :| 0 <= i < |s| && s[i] == '@';
    assert !IsDigit(s[i]);
  }

  /** A truthy value of a sub-field "phone" that is not ten digits gets the phone
      message (the required rule fires only on falsy values). On an email-typed sub-field
      this holds when the value contains "@", the case the email rule leaves
      alone. */
  lemma PhoneSubFieldReported(subs: seq<FieldSchema>, item: Item, k: nat)
    requires DistinctIds(subs) && k < |subs|
    requires subs[k].id == "phone"
    requires subs[k].kind != Email || (ItemGet(item, "phone").Str? && '@' in ItemGet(item, "phone").s)
    requires PrimTruthy(ItemGet(item, "phone")) && !MatchesPhonePattern(ItemGet(item, "phone"))
    requires ItemErrors(subs, item).Ok?
    ensures "phone" in ItemErrors(subs, item).value && ItemErrors(subs, item).value["phone"] == PhoneMessage
  {
    ItemEntry(subs, item, k);
  }

  /** A required sub-field with a falsy value gets exactly its required message. */
  lemma RequiredSubFieldReported(subs: seq<FieldSchema>, item: Item, k: nat)
    requires DistinctIds(subs) && k < |subs|
    requires subs[k].required && !PrimTruthy(ItemGet(item, subs[k].id))
    requires ItemErrors(subs, item).Ok?
    ensures var m := ItemErrors(subs, item).value;
      subs[k].id in m && m[subs[k].id] == RequiredMessage(subs[k].caption)
  {
    ItemEntry(subs, item, k);
  }

  /** An email-typed sub-field named "phone" whose value is a non-empty string
      without "@" ends with the email message, whatever the phone pattern says:
      its assignment comes last. */
  lemma EmailSubFieldOverridesPhone(sub: FieldSchema, item: Item, s: string)
    requires sub.id == "phone" && sub.kind == Email
    requires ItemGet(item, "phone") == Str(s) && s != "" && '@' !in s
    ensures SubFieldOutcome(sub, item) == Ok(Some(InvalidEmailMessage))
  {
  }

  /** Email sub-fields get the "@" check only, never the uniqueness check: any
      address with "@" passes, the two taken ones included. */
  lemma SubFieldEmailNotChecked(sub: FieldSchema, item: Item, s: string)
    requires sub.id != "phone" && sub.kind == Email
    requires ItemGet(item, sub.id) == Str(s) && '@' in s
    ensures SubFieldOutcome(sub, item) == Ok(None)
  {
  }

  /** Two field lists that differ at most in their visibility conditions. */
  predicate SameButConditions(a: seq<FieldSchema>, b: seq<FieldSchema>) {
    |a| == |b| && forall i :: 0 <= i < |a| ==> b[i] == a[i].(showIf := b[i].showIf)
  }

  /** The report does not depend on any `showIf`: hidden fields are validated
      like visible ones. */
  lemma ReportIgnoresShowIf(schema: FormSchema, other: FormSchema, data: FormData, numeric: string -> bool)
    requires SameButConditions(schema.fields, other.fields)
    ensures FormErrors(schema, data, numeric) == FormErrors(other, data, numeric)
  {
    assert FieldWrites(schema.fields, data, numeric) == FieldWrites(other.fields, data, numeric);
  }

  // ---------------------------------------------------------------------------
  // The application's form

  /** An empty form: the three required scalar fields, nothing for the optional
      age and phones. */
  lemma EmptyDataReport(numeric: string -> bool)
    ensures FormErrors(UserForm, map[], numeric) == Ok(map[
      "name" := Message("Full Name is required"),
      "email" := Message("Email Address is required"),
      "country" := Message("Country is required")])
  {
    var ws := FieldWrites(UserForm.fields, map[], numeric);
    assert RequiredMessage("Full Name") == "Full Name is required";
    assert RequiredMessage("Email Address") == "Email Address is required";
    assert RequiredMessage("Country") == "Country is required";
    var w0: Write<ErrorEntry> := Write("name", Ok(Some(Message("Full Name is required"))));
    var w1: Write<ErrorEntry> := Write("email", Ok(Some(Message("Email Address is required"))));
    var w2: Write<ErrorEntry> := Write("age", Ok(None));
    var w3: Write<ErrorEntry> := Write("country", Ok(Some(Message("Country is required"))));
    var w4: Write<ErrorEntry> := Write("phones", Ok(None));
    assert ws == [w0] + ([w1] + ([w2] + ([w3] + ([w4] + []))));
    ApplyCons(w0, [w1] + ([w2] + ([w3] + ([w4] + []))), map[]);
    ApplyCons(w1, [w2] + ([w3] + ([w4] + [])), Put(map[], w0.key, w0.outcome.value));
    ApplyCons(w2, [w3] + ([w4] + []), map["name" := Message("Full Name is required"), "email" := Message("Email Address is required")]);
    ApplyCons(w3, [w4] + [], map["name" := Message("Full Name is required"), "email" := Message("Email Address is required")]);
    ApplyCons(w4, [], map["name" := Message("Full Name is required"), "email" := Message("Email Address is required"),
                          "country" := Message("Country is required")]);
  }

  /** `phones` is not required: with no phones, the report has no phones entry. */
  lemma NoPhonesNoEntry(data: FormData, numeric: string -> bool)
    requires !Truthy(Get(data, "phones")) || Get(data, "phones") == Rows([])
    requires FormErrors(UserForm, data, numeric).Ok?
    ensures "phones" !in FormErrors(UserForm, data, numeric).value
  {
    UserFormIds();
    EmptyGroupReported(UserForm, data, numeric, 4);
  }

  /** The phones group holding one short number: one item record, with the phone message. */
  lemma ShortPhoneOutcome(numeric: string -> bool)
    ensures FieldOutcome(UserForm.fields[4], Rows([map["phone" := Str("12345")]]), numeric)
      == Ok(Some(PerItem([map["phone" := PhoneMessage]])))
  {
    var item: Item := map["phone" := Str("12345")];
    var m := map["phone" := PhoneMessage];
    assert !MatchesPhonePattern(Str("12345"));
    assert SubFieldOutcome(PhoneField, item) == Ok(Some(PhoneMessage));
    var p := Write("phone", Ok(Some(PhoneMessage)));
    assert SubFieldWrites([PhoneField], item) == [p] + [];
    ApplyCons(p, [], map[]);
    assert ItemErrors([PhoneField], item) == Ok(m);
    var none: seq<map<string, string>> := [];
    var noRows: seq<Item> := [];
    assert [item][0] == item && [item][1..] == noRows;
    assert none + [m] == [m];
    assert RowErrors([PhoneField], noRows, [m]) == Ok([m]);
    assert RowErrors([PhoneField], [item], none) == Ok([m]);
    assert SomeItemHasErrors([m]) by {
      assert |[m][0]| > 0;
    }
  }

  /** The scalar fields of the short-phone form pass their rules. */
  lemma ValidScalarsOutcome(numeric: string -> bool)
    ensures FieldOutcome(UserForm.fields[0], Scalar(Str("Ann")), numeric) == Ok(None)
    ensures FieldOutcome(UserForm.fields[1], Scalar(Str("ann@site.com")), numeric) == Ok(None)
    ensures FieldOutcome(UserForm.fields[2], Scalar(Undefined), numeric) == Ok(None)
    ensures FieldOutcome(UserForm.fields[3], Scalar(Str("USA")), numeric) == Ok(None)
  {
    assert '@' in "ann@site.com" by { assert "ann@site.com"[3] == '@'; }
    assert "ann@site.com" !in TakenEmails;
  }

  /** A form whose only fault is one short phone number: the report has only the
      phones entry, holding one record with the phone message. */
  lemma ShortPhoneReported(numeric: string -> bool)
    ensures var data := map["name" := Scalar(Str("Ann")), "email" := Scalar(Str("ann@site.com")),
                            "country" := Scalar(Str("USA")), "phones" := Rows([map["phone" := Str("12345")]])];
      FormErrors(UserForm, data, numeric) == Ok(map["phones" := PerItem([map["phone" := PhoneMessage]])])
  {
    var data := map["name" := Scalar(Str("Ann")), "email" := Scalar(Str("ann@site.com")),
                    "country" := Scalar(Str("USA")), "phones" := Rows([map["phone" := Str("12345")]])];
    var ws := FieldWrites(UserForm.fields, data, numeric);
    ShortPhoneOutcome(numeric);
    ValidScalarsOutcome(numeric);
    var entry := PerItem([map["phone" := PhoneMessage]]);
    var w0: Write<ErrorEntry> := Write("name", Ok(None));
    var w1: Write<ErrorEntry> := Write("email", Ok(None));
    var w2: Write<ErrorEntry> := Write("age", Ok(None));
    var w3: Write<ErrorEntry> := Write("country", Ok(None));
    var w4: Write<ErrorEntry> := Write("phones", Ok(Some(entry)));
    assert Get(data, "name") == Scalar(Str("Ann"));
    assert Get(data, "email") == Scalar(Str("ann@site.com"));
    assert Get(data, "age") == Scalar(Undefined);
    assert Get(data, "country") == Scalar(Str("USA"));
    assert Get(data, "phones") == Rows([map["phone" := Str("12345")]]);
    assert ws[0] == w0;
    assert ws[1] == w1;
    assert ws[2] == w2;
    assert ws[3] == w3;
    assert ws[4] == w4;
    assert ws == [w0] + ([w1] + ([w2] + ([w3] + ([w4] + []))));
    ApplyCons(w0, [w1] + ([w2] + ([w3] + ([w4] + []))), map[]);
    ApplyCons(w1, [w2] + ([w3] + ([w4] + [])), map[]);
    ApplyCons(w2, [w3] + ([w4] + []), map[]);
    ApplyCons(w3, [w4] + [], map[]);
    ApplyCons(w4, [], map[]);
  }

  /** A non-empty phones list whose every phone matches the ten-digit pattern
      leaves no phones entry. */
  lemma ValidPhonesOutcome(rows: seq<Item>, numeric: string -> bool)
    requires |rows| > 0
    requires forall j :: 0 <= j < |rows| ==> MatchesPhonePattern(ItemGet(rows[j], "phone"))
    ensures FieldOutcome(UserForm.fields[4], Rows(rows), numeric) == Ok(None)
  {
    var empty: map<string, string> := map[];
    forall j | 0 <= j < |rows| ensures ItemErrors([PhoneField], rows[j]) == Ok(empty) {
      var w: Write<string> := Write("phone", Ok(None));
      assert SubFieldWrites([PhoneField], rows[j]) == [w] + [];
      ApplyCons(w, [], map[]);
    }
    var none: seq<map<string, string>> := [];
    RowErrorsShape([PhoneField], rows, none);
    var list := RowErrors([PhoneField], rows, none).value;
    forall j | 0 <= j < |list| ensures list[j] == empty {
      assert ItemErrors([PhoneField], rows[j]) == Ok(list[|none| + j]);
    }
  }

  /** The valid scalar fields of the pre-filled record. */
  lemma PreFilledScalarsOutcome(numeric: string -> bool)
    ensures FieldOutcome(UserForm.fields[0], Scalar(Str("John Doe")), numeric) == Ok(None)
    ensures FieldOutcome(UserForm.fields[1], Scalar(Str("john@gmail.com")), numeric) == Ok(None)
    ensures FieldOutcome(UserForm.fields[2], Scalar(Num(25)), numeric) == Ok(None)
    ensures FieldOutcome(UserForm.fields[3], Scalar(Str("USA")), numeric) == Ok(None)
  {
    assert '@' in "john@gmail.com" by { assert "john@gmail.com"[4] == '@'; }
    assert "john@gmail.com" !in TakenEmails;
  }

  /** The pre-filled record of the component's stories passes every rule. */
  lemma PreFilledReport(numeric: string -> bool)
    ensures var data := map["name" := Scalar(Str("John Doe")), "email" := Scalar(Str("john@gmail.com")),
                            "age" := Scalar(Num(25)), "country" := Scalar(Str("USA")),
                            "phones" := Rows([map["phone" := Str("1234567890")]])];
      FormErrors(UserForm, data, numeric) == Ok(map[])
  {
    var data := map["name" := Scalar(Str("John Doe")), "email" := Scalar(Str("john@gmail.com")),
                    "age" := Scalar(Num(25)), "country" := Scalar(Str("USA")),
                    "phones" := Rows([map["phone" := Str("1234567890")]])];
    var rows: seq<Item> := [map["phone" := Str("1234567890")]];
    assert MatchesPhonePattern(ItemGet(rows[0], "phone"));
    ValidPhonesOutcome(rows, numeric);
    PreFilledScalarsOutcome(numeric);
    var ws := FieldWrites(UserForm.fields, data, numeric);
    var w0: Write<ErrorEntry> := Write("name", Ok(None));
    var w1: Write<ErrorEntry> := Write("email", Ok(None));
    var w2: Write<ErrorEntry> := Write("age", Ok(None));
    var w3: Write<ErrorEntry> := Write("country", Ok(None));
    var w4: Write<ErrorEntry> := Write("phones", Ok(None));
    assert Get(data, "name") == Scalar(Str("John Doe"));
    assert Get(data, "email") == Scalar(Str("john@gmail.com"));
    assert Get(data, "age") == Scalar(Num(25));
    assert Get(data, "country") == Scalar(Str("USA"));
    assert Get(data, "phones") == Rows(rows);
    assert ws[0] == w0;
    assert ws[1] == w1;
    assert ws[2] == w2;
    assert ws[3] == w3;
    assert ws[4] == w4;
    assert ws == [w0] + ([w1] + ([w2] + ([w3] + ([w4] + []))));
    ApplyCons(w0, [w1] + ([w2] + ([w3] + ([w4] + []))), map[]);
    ApplyCons(w1, [w2] + ([w3] + ([w4] + [])), map[]);
    ApplyCons(w2, [w3] + ([w4] + []), map[]);
    ApplyCons(w3, [w4] + [], map[]);
    ApplyCons(w4, [], map[]);
  }

  /** The scalar fields of the three-phone record: no age and no country. */
  lemma ThreePhonesScalarsOutcome(numeric: string -> bool)
    ensures FieldOutcome(UserForm.fields[0], Scalar(Str("Alice Smith")), numeric) == Ok(None)
    ensures FieldOutcome(UserForm.fields[1], Scalar(Str("alice@example.com")), numeric) == Ok(None)
    ensures FieldOutcome(UserForm.fields[2], Scalar(Undefined), numeric) == Ok(None)
    ensures FieldOutcome(UserForm.fields[3], Scalar(Undefined), numeric)
      == Ok(Some(Message("Country is required")))
  {
    assert '@' in "alice@example.com" by { assert "alice@example.com"[5] == '@'; }
    assert "alice@example.com" !in TakenEmails;
    assert RequiredMessage("Country") == "Country is required";
  }

  /** The three-phone record of the component's stories: it names no country,
      and that is the only entry. */
  lemma ThreePhonesReport(numeric: string -> bool)
    ensures var data := map["name" := Scalar(Str("Alice Smith")), "email" := Scalar(Str("alice@example.com")),
                            "phones" := Rows([map["phone" := Str("1111111111")], map["phone" := Str("2222222222")],
                                              map["phone" := Str("3333333333")]])];
      FormErrors(UserForm, data, numeric) == Ok(map["country" := Message("Country is required")])
  {
    var rows: seq<Item> := [map["phone" := Str("1111111111")], map["phone" := Str("2222222222")],
                            map["phone" := Str("3333333333")]];
    var data := map["name" := Scalar(Str("Alice Smith")), "email" := Scalar(Str("alice@example.com")),
                    "phones" := Rows(rows)];
    assert MatchesPhonePattern(ItemGet(rows[0], "phone"));
    assert MatchesPhonePattern(ItemGet(rows[1], "phone"));
    assert MatchesPhonePattern(ItemGet(rows[2], "phone"));
    ValidPhonesOutcome(rows, numeric);
    ThreePhonesScalarsOutcome(numeric);
    var ws := FieldWrites(UserForm.fields, data, numeric);
    var entry := Message("Country is required");
    var w0: Write<ErrorEntry> := Write("name", Ok(None));
    var w1: Write<ErrorEntry> := Write("email", Ok(None));
    var w2: Write<ErrorEntry> := Write("age", Ok(None));
    var w3: Write<ErrorEntry> := Write("country", Ok(Some(entry)));
    var w4: Write<ErrorEntry> := Write("phones", Ok(None));
    assert Get(data, "name") == Scalar(Str("Alice Smith"));
    assert Get(data, "email") == Scalar(Str("alice@example.com"));
    assert Get(data, "age") == Scalar(Undefined);
    assert Get(data, "country") == Scalar(Undefined);
    assert Get(data, "phones") == Rows(rows);
    assert ws[0] == w0;
    assert ws[1] == w1;
    assert ws[2] == w2;
    assert ws[3] == w3;
    assert ws[4] == w4;
    assert ws == [w0] + ([w1] + ([w2] + ([w3] + ([w4] + []))));
    ApplyCons(w0, [w1] + ([w2] + ([w3] + ([w4] + []))), map[]);
    ApplyCons(w1, [w2] + ([w3] + ([w4] + [])), map[]);
    ApplyCons(w2, [w3] + ([w4] + []), map[]);
    ApplyCons(w3, [w4] + [], map[]);
    ApplyCons(w4, [], map["country" := entry]);
  }
}

/** The form component's state and its handlers, apart from rendering: field
    edits, group edits, option loading, hydration from the store, and the
    decision taken when another tab writes the same store key. */
module FormRenderer {
  import opened JsValues
  import opened Schema
  import opened Validator
  import ValidatorProperties

  /** The store key the form data is kept under. */
  const StorageKey := "dynamic-form-data"

  /** The list every select field with `asyncOptions` receives. */
  const LoadedOptions: seq<string> := ["India", "USA", "Germany", "Japan"]

  // ---------------------------------------------------------------------------
  // Visibility

  /** The render-time visibility test of a field. With a condition, the field is
      hidden when `exists` is set and the dependency is falsy, and hidden when
      `equals` is given and the dependency is not strictly equal to it. */
  function IsVisible(f: FieldSchema, data: FormData): bool {
    if f.showIf.None? then true
    else
      var c := f.showIf.value;
      var dependentValue := Get(data, c.field);
      if c.mustExist && !Truthy(dependentValue) then false
      else if c.equals != Undefined && !StrictEquals(dependentValue, c.equals) then false
      else true
  }

  /** A field without a condition shows; with one, the two tests are a
      conjunction: both must pass for the field to show. */
  lemma VisibleIffBothTestsPass(f: FieldSchema, data: FormData)
    ensures f.showIf.None? ==> IsVisible(f, data)
    ensures f.showIf.Some? ==>
      var c := f.showIf.value; var dep := Get(data, c.field);
      IsVisible(f, data) <==>
        (!c.mustExist || Truthy(dep)) && (c.equals == Undefined || StrictEquals(dep, c.equals))
  {
  }

  /** `exists: false` hides nothing: such a field shows whatever its dependency
      holds, unless `equals` rules it out. */
  lemma ExistsFalseNeverHides(f: FieldSchema, data: FormData)
    requires f.showIf.Some? && !f.showIf.value.mustExist
    ensures IsVisible(f, data) <==>
      f.showIf.value.equals == Undefined || StrictEquals(Get(data, f.showIf.value.field), f.showIf.value.equals)
  {
  }

  /** In the application's form, `age` shows exactly when `email` is truthy, and
      every other field always shows. */
  lemma UserFormVisibility(data: FormData)
    ensures IsVisible(UserForm.fields[2], data) <==> Truthy(Get(data, "email"))
    ensures forall i :: 0 <= i < |UserForm.fields| && i != 2 ==> IsVisible(UserForm.fields[i], data)
  {
  }

  // ---------------------------------------------------------------------------
  // Group lists

  /** `formData[groupId] || []` followed by `map` or `filter`: a truthy value
      that is not an array has neither, and the call throws. */
  function ListOrEmpty(v: Value): Run<seq<Item>> {
    if !Truthy(v) then Ok([])
    else if v.Rows? then Ok(v.rows)
    else TypeError
  }

  predicate IsNonEmptyString(v: Value) {
    v.Scalar? && v.prim.Str? && v.prim.s != ""
  }

  /** `rows.map((item, i) => i === index ? { ...item, [fieldId]: value } : item)` */
  function UpdateAt(rows: seq<Item>, index: int, fieldId: string, value: Prim): (r: seq<Item>)
    ensures |r| == |rows|
  {
    seq(|rows|, i requires 0 <= i < |rows| => if i == index then rows[i][fieldId := value] else rows[i])
  }

  /** In range, the item at `index` gets the new sub-field value; the other items
      keep their places and contents. */
  lemma UpdateAtInRange(rows: seq<Item>, index: int, fieldId: string, value: Prim)
    requires 0 <= index < |rows|
    ensures UpdateAt(rows, index, fieldId, value) == rows[..index] + [rows[index][fieldId := value]] + rows[index + 1..]
    ensures UpdateAt(rows, index, fieldId, value)[index][fieldId] == value
    ensures forall k :: k in rows[index] && k != fieldId ==>
      k in UpdateAt(rows, index, fieldId, value)[index] && UpdateAt(rows, index, fieldId, value)[index][k] == rows[index][k]
  {
    var r := UpdateAt(rows, index, fieldId, value);
    var s := rows[..index] + [rows[index][fieldId := value]] + rows[index + 1..];
    assert |r| == |s|;
    forall j | 0 <= j < |r| ensures r[j] == s[j] {
      if j < index {
        assert s[j] == rows[j];
      } else if j > index {
        assert s[j] == rows[index + 1..][j - index - 1];
      }
    }
  }

  /** Out of range, nothing changes: no position equals the index. */
  lemma UpdateAtOutOfRange(rows: seq<Item>, index: int, fieldId: string, value: Prim)
    requires !(0 <= index < |rows|)
    ensures UpdateAt(rows, index, fieldId, value) == rows
  {
  }

  /** `rows.filter((_, i) => i !== index)`, the first row standing at position `from`. */
  function KeepOthers(rows: seq<Item>, index: int, from: int): seq<Item>
    decreases |rows|
  {
    if rows == [] then []
    else (if from == index then [] else [rows[0]]) + KeepOthers(rows[1..], index, from + 1)
  }

  function RemoveAt(rows: seq<Item>, index: int): seq<Item> {
    KeepOthers(rows, index, 0)
  }

  /** Filtering out a position where no row stands leaves the rows as they are. */
  lemma {:induction false} KeepOthersOutside(rows: seq<Item>, index: int, from: int)
    requires !(from <= index < from + |rows|)
    ensures KeepOthers(rows, index, from) == rows
  {
    if rows != [] {
      KeepOthersOutside(rows[1..], index, from + 1);
      assert [rows[0]] + rows[1..] == rows;
    }
  }

  /** Filtering out a position where a row stands cuts out exactly that row. */
  lemma {:induction false} KeepOthersCutsOut(rows: seq<Item>, index: int, from: int)
    requires from <= index < from + |rows|
    ensures KeepOthers(rows, index, from) == rows[..index - from] + rows[index - from + 1..]
  {
    if from == index {
      KeepOthersOutside(rows[1..], index, from + 1);
      assert rows[..0] + rows[1..] == rows[1..];
    } else {
      var tail := rows[1..];
      KeepOthersCutsOut(tail, index, from + 1);
      var d := index - from;
      assert KeepOthers(rows, index, from) == [rows[0]] + (tail[..d - 1] + tail[d..]);
      assert [rows[0]] + tail[..d - 1] == rows[..d];
      assert tail[d..] == rows[d + 1..];
    }
  }

  /** Removing an item in range: one item fewer, the earlier ones in place, the
      later ones one position down. */
  lemma RemoveAtInRange(rows: seq<Item>, index: int)
    requires 0 <= index < |rows|
    ensures |RemoveAt(rows, index)| == |rows| - 1
    ensures forall j :: 0 <= j < index ==> RemoveAt(rows, index)[j] == rows[j]
    ensures forall j :: index <= j < |rows| - 1 ==> RemoveAt(rows, index)[j] == rows[j + 1]
  {
    KeepOthersCutsOut(rows, index, 0);
    assert rows[..index] + rows[index + 1..] == RemoveAt(rows, index);
  }

  /** Removing an index out of range changes nothing. */
  lemma RemoveAtOutOfRange(rows: seq<Item>, index: int)
    requires !(0 <= index < |rows|)
    ensures RemoveAt(rows, index) == rows
  {
    KeepOthersOutside(rows, index, 0);
  }

  /** The three-phone record of the component's stories: removing index 1 leaves
      the first and the third, in that order. */
  lemma RemoveSecondOfThreePhones()
    ensures RemoveAt([map["phone" := Str("1111111111")], map["phone" := Str("2222222222")],
                      map["phone" := Str("3333333333")]], 1)
      == [map["phone" := Str("1111111111")], map["phone" := Str("3333333333")]]
  {
    RemoveAtInRange([map["phone" := Str("1111111111")], map["phone" := Str("2222222222")],
                     map["phone" := Str("3333333333")]], 1);
  }

  /** `const newItem = {}; fields.forEach((f) => (newItem[f.id] = ""))` */
  method NewItem(subs: seq<FieldSchema>) returns (item: Item)
    ensures item.Keys == Ids(subs)
    ensures forall k :: k in item ==> item[k] == Str("")
  {
    item := map[];
    var i := 0;
    while i < |subs|
      invariant 0 <= i <= |subs|
      invariant item.Keys == Ids(subs[..i])
      invariant forall k :: k in item ==> item[k] == Str("")
    {
      assert Ids(subs[..i + 1]) == Ids(subs[..i]) + {subs[i].id} by {
        assert forall j :: 0 <= j < i ==> subs[..i + 1][j] == subs[..i][j];
        assert subs[..i + 1][i] == subs[i];
      }
      item := item[subs[i].id := Str("")];
      i := i + 1;
    }
    assert subs[..i] == subs;
  }

  // ---------------------------------------------------------------------------
  // Options

  predicate HasAsyncOptions(f: FieldSchema) {
    f.kind == Select && f.asyncOptions
  }

  function AsyncSelectIds(fields: seq<FieldSchema>): set<string> {
    set i | 0 <= i < |fields| && HasAsyncOptions(fields[i]) :: fields[i].id
  }

  /** Of the application's form, only `country` has its options loaded. */
  lemma UserFormAsyncSelects()
    ensures AsyncSelectIds(UserForm.fields) == {"country"}
  {
    assert HasAsyncOptions(UserForm.fields[3]);
  }

  lemma AsyncSelectIdsGrow(fields: seq<FieldSchema>, i: nat)
    requires i < |fields|
    ensures AsyncSelectIds(fields[..i + 1]) ==
      AsyncSelectIds(fields[..i]) + if HasAsyncOptions(fields[i]) then {fields[i].id} else {}
  {
    assert forall j :: 0 <= j < i ==> fields[..i + 1][j] == fields[..i][j];
    assert fields[..i + 1][i] == fields[i];
  }

  // ---------------------------------------------------------------------------
  // Cross-tab writes

  /** Whether a store event asks the user anything: an event for the form's key
      carrying a value whose contents differ from the local state. */
  predicate Differs(local: FormData, key: string, incoming: Option<FormData>) {
    key == StorageKey && incoming.Some? && local != incoming.value
  }

  /** The storage-event handler's effect on the form data; `confirmed` is the
      answer the user gives when asked whether to load the other tab's data. */
  function AfterStorageEvent(local: FormData, key: string, incoming: Option<FormData>, confirmed: bool): FormData {
    if key == StorageKey && incoming.Some? then
      if local != incoming.value then (if confirmed then incoming.value else local) else local
    else local
  }

  /** All or nothing: the result is the local state or the other tab's state,
      never a mix; the other tab's state is taken only when it differs and the
      user confirms. */
  lemma StorageEventAllOrNothing(local: FormData, key: string, incoming: Option<FormData>, confirmed: bool)
    ensures var r := AfterStorageEvent(local, key, incoming, confirmed);
      && (r == local || (incoming.Some? && r == incoming.value))
      && (r != local <==> Differs(local, key, incoming) && confirmed)
      && (Differs(local, key, incoming) ==> (r == incoming.value <==> confirmed))
  {
  }

  // ---------------------------------------------------------------------------
  // The component

  /** The error state once `validateForm` settles: its report, or, when it
      rejects, the errors as they were (the `setErrors` after it never runs). */
  function SettledErrors(data: FormData, numeric: string -> bool, prior: Errors): Errors {
    match FormErrors(UserForm, data, numeric)
    case Ok(e) => e
    case TypeError => prior
  }

  lemma SettledErrorsKeys(data: FormData, numeric: string -> bool, prior: Errors)
    requires prior.Keys <= Ids(UserForm.fields)
    ensures SettledErrors(data, numeric, prior).Keys <= Ids(UserForm.fields)
  {
    ValidatorProperties.ReportKeysAreFieldIds(UserForm, data, numeric);
  }

  /** The component's three pieces of state. `numeric` stands for how `Number`
      reads a string. */
  class FormRenderer {
    var formData: FormData
    var errors: Errors
    var options: map<string, seq<string>>
    const numeric: string -> bool

    /** Errors are only ever keyed by top-level ids, and options only by the ids
        of select fields with `asyncOptions`. */
    ghost predicate Valid()
      reads this
    {
      errors.Keys <= Ids(UserForm.fields) && options.Keys <= AsyncSelectIds(UserForm.fields)
    }

    constructor (numeric: string -> bool)
      ensures Valid()
      ensures formData == map[] && errors == map[] && options == map[]
      ensures this.numeric == numeric
    {
      formData, errors, options := map[], map[], map[];
      this.numeric := numeric;
    }

    /** `validateForm(formSchema, formData)` followed by `setErrors`. */
    method Revalidate()
      requires Valid()
      modifies this`errors
      ensures Valid()
      ensures errors == SettledErrors(formData, numeric, old(errors))
    {
      var result := ValidateForm(UserForm, formData, numeric);
      SettledErrorsKeys(formData, numeric, errors);
      if result.Ok? {
        errors := result.value;
      }
    }

    /** `handleChange`: set one key, then revalidate. */
    method HandleChange(id: string, value: Value)
      requires Valid()
      modifies this
      ensures Valid()
      ensures formData == old(formData)[id := value]
      ensures errors == SettledErrors(formData, numeric, old(errors))
      ensures options == old(options)
    {
      formData := formData[id := value];
      Revalidate();
    }

    /** `handleGroupChange`: set one sub-field of one item, then revalidate. An
        absent or falsy group becomes `[]`; a truthy non-array throws before
        anything is set. */
    method HandleGroupChange(groupId: string, index: int, fieldId: string, value: Prim)
      requires Valid()
      modifies this
      ensures Valid()
      ensures match ListOrEmpty(Get(old(formData), groupId))
        case TypeError => formData == old(formData) && errors == old(errors)
        case Ok(rows) =>
          && formData == old(formData)[groupId := Rows(UpdateAt(rows, index, fieldId, value))]
          && errors == SettledErrors(formData, numeric, old(errors))
      ensures options == old(options)
    {
      var current := ListOrEmpty(Get(formData, groupId));
      if current.TypeError? {
        return;
      }
      formData := formData[groupId := Rows(UpdateAt(current.value, index, fieldId, value))];
      Revalidate();
    }

    /** `addGroupItem`: append an item with every sub-field set to "". Errors are
        not recomputed. A number or `true` under the key is not iterable and
        throws before anything is set. */
    method AddGroupItem(groupId: string, subs: seq<FieldSchema>)
      requires Valid()
      requires !IsNonEmptyString(Get(formData, groupId))
      modifies this
      ensures Valid()
      ensures match ListOrEmpty(Get(old(formData), groupId))
        case TypeError => formData == old(formData)
        case Ok(rows) =>
          && groupId in formData && formData[groupId].Rows?
          && formData == old(formData)[groupId := formData[groupId]]
          && var r := formData[groupId].rows;
          && |r| == |rows| + 1
          && r[..|rows|] == rows
          && r[|rows|].Keys == Ids(subs)
          && forall k :: k in r[|rows|] ==> r[|rows|][k] == Str("")
      ensures errors == old(errors) && options == old(options)
    {
      var current := ListOrEmpty(Get(formData, groupId));
      if current.TypeError? {
        return;
      }
      var newItem := NewItem(subs);
      var updatedGroup := current.value + [newItem];
      assert updatedGroup[..|current.value|] == current.value;
      formData := formData[groupId := Rows(updatedGroup)];
    }

    /** `removeGroupItem`: drop the item at `index` by filtering positions. Errors
        are not recomputed. */
    method RemoveGroupItem(groupId: string, index: int)
      requires Valid()
      modifies this
      ensures Valid()
      ensures match ListOrEmpty(Get(old(formData), groupId))
        case TypeError => formData == old(formData)
        case Ok(rows) => formData == old(formData)[groupId := Rows(RemoveAt(rows, index))]
      ensures errors == old(errors) && options == old(options)
    {
      var current := ListOrEmpty(Get(formData, groupId));
      if current.TypeError? {
        return;
      }
      formData := formData[groupId := Rows(RemoveAt(current.value, index))];
    }

    /** The options effect, once its timers have fired (they are scheduled in
        field order with the same delay): every select field with
        `asyncOptions` receives the loaded list; other entries stay. */
    method LoadOptions()
      requires Valid()
      modifies this`options
      ensures Valid()
      ensures options.Keys == old(options).Keys + AsyncSelectIds(UserForm.fields)
      ensures forall k :: k in options ==>
        options[k] == if k in AsyncSelectIds(UserForm.fields) then LoadedOptions else old(options)[k]
    {
      var fields := UserForm.fields;
      var i := 0;
      while i < |fields|
        invariant 0 <= i <= |fields|
        invariant options.Keys == old(options).Keys + AsyncSelectIds(fields[..i])
        invariant forall k :: k in options ==>
          options[k] == if k in AsyncSelectIds(fields[..i]) then LoadedOptions else old(options)[k]
      {
        AsyncSelectIdsGrow(fields, i);
        var field := fields[i];
        if field.kind == Select && field.asyncOptions {
          options := options[field.id := LoadedOptions];
        }
        i := i + 1;
      }
      assert fields[..i] == fields;
    }

    /** The load effect: when the store holds saved data, it becomes the form
        data and is validated. */
    method Hydrate(saved: Option<FormData>)
      requires Valid()
      modifies this
      ensures Valid()
      ensures saved.None? ==> formData == old(formData) && errors == old(errors)
      ensures saved.Some? ==> formData == saved.value && errors == SettledErrors(formData, numeric, old(errors))
      ensures options == old(options)
    {
      if saved.Some? {
        formData := saved.value;
        Revalidate();
      }
    }

    /** The storage-event handler. Adopting the other tab's data does not
        revalidate it. */
    method OnStorageEvent(key: string, incoming: Option<FormData>, confirmed: bool)
      requires Valid()
      modifies this`formData
      ensures Valid()
      ensures formData == AfterStorageEvent(old(formData), key, incoming, confirmed)
    {
      if key == StorageKey && incoming.Some? {
        var externalData := incoming.value;
        if formData != externalData {
          if confirmed {
            formData := externalData;
          }
        }
      }
    }
  }
}

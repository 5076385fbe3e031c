# Dynamic form builder: validator, schema and form state

A model in Dafny of the core of a schema-driven form builder with three parts:

- **The schema** (`Schema`): the six field types, the field and form records, and the one form the application renders. That form has name, email, age (shown only when email is filled in), country (a select whose options arrive late) and a repeatable phone-number group.
- **The validator** (`Validator`, `ValidatorProperties`, `Writes`): `validateForm` walks the top-level fields in schema order and fills an error record by plain assignment, so for each key the last rule that fires wins. Repeatable groups get one error record per item. The method `Validator.ValidateForm` keeps the source's loops and mutable maps. It is proved equal to the fold `Validator.FormErrors`, about which the report's properties are proved.
- **The form component's state** (`FormRenderer`): the three pieces of component state (form data, errors, options) are fields of a class. Its methods are the handlers: field edit, group sub-field edit, add and remove a group item, the options fill, hydration from the store, and the cross-tab storage event. The pure parts are functions with lemmas: the visibility test, `map`/`filter` over the items, and the conflict decision.

JavaScript semantics are written out on a small value type (`JsValues`):

- **Values.** A value is `undefined`, a string, an integral number, a boolean, or an array of items, where an item is a record of scalars.
- **Truthiness.** `undefined`, `""`, `0` and `false` are falsy. Every array is truthy.
- **Missing keys.** Reading a key the record does not hold gives `undefined`. In the source this holds only for names that plain objects do not inherit; see `JsValues.Get` under "## Left out".
- **Errors.** Where the source calls a method that the value lacks, it throws a `TypeError`, and the model yields `TypeError`:
  - `includes` on a number or a boolean;
  - `forEach`, `map` or `filter` on a non-array;
  - spreading a number or `true`.

  A thrown error rejects the validator's promise, so the `setErrors` after the `await` never runs. The form keeps its old errors, and the `setFormData` that ran before the throw has already taken effect.
- **The phone test.** `/^\d{10}$/` is applied to the value's string form: a number is written in decimal, `true` as `"true"`. Lemma `JsValues.NumberMatchesPhonePattern` shows that a number passes exactly when it lies between 10^9 and 9999999999.
- **`isNaN(Number(v))`.** For strings this is a parameter: `numeric` says whether a string converts to a number. The other cases are fixed: `undefined` gives NaN, a number or a boolean converts, `[]` converts, and a non-empty array gives NaN.

The code does not do what one might expect in these places, and the model follows the code:

- Hidden fields are validated (`ValidatorProperties.ReportIgnoresShowIf`).
- `exists: false` hides nothing (`FormRenderer.ExistsFalseNeverHides`).
- Adopting the data of another tab sets the form data and does **not** revalidate it: `FormRenderer.FormRenderer.OnStorageEvent` leaves the errors untouched.
- Adding or removing a group item does not revalidate either.
- No validation result is ever discarded as stale.

## Model

| member | source | states |
|---|---|---|
| JsValues.MatchesPhonePattern | form-builder/src/form-engine/validator.ts:29 | `/^\d{10}$/.test(p)`: the value's string form is exactly ten characters 0-9 |
| JsValues.NumberIsNaN | form-builder/src/form-engine/validator.ts:64 | `isNaN(Number(v))`: string conversion by the parameter `numeric`, the other cases fixed |
| JsValues.NumberMatchesPhonePattern | form-builder/src/form-engine/validator.ts:29 | a number passes the ten-digit pattern on its decimal string exactly when 10^9 <= n <= 9999999999; a negative one never does |
| Schema.UserForm | form-builder/src/form-engine/schema.ts:31-79 | the application's form: its id, title and five fields with their labels, types, flags, condition and sub-field, as written |
| Schema.ParseType | form-builder/src/form-engine/schema.ts:1-7 | a string names a field type exactly when it is one of the six literals, and the type read back has that name |
| Schema.TypeNameRoundTrip | form-builder/src/form-engine/schema.ts:1-7 | the six types have six distinct names and each name reads back as its type |
| Schema.UserFormIds | form-builder/src/form-engine/schema.ts:34-78 | the form's top-level ids are name, email, age, country, phones in that order, pairwise distinct |
| Schema.UserFormShowIf | form-builder/src/form-engine/schema.ts:47-56 | only `age` has a condition: `exists` on "email", the id of an earlier field, with no `equals` |
| Schema.UserFormGroups | form-builder/src/form-engine/schema.ts:64-77 | only `phones` is a group; it is repeatable, not required, and its fields are the single required text sub-field `phone` |
| Schema.UserFormAvoidsInheritedNames | form-builder/src/form-engine/schema.ts:34-78 | no top-level or sub-field id of the form names a property inherited from `Object.prototype` |
| Schema.UserFormAsyncOptions | form-builder/src/form-engine/schema.ts:57-63 | only `country` has `asyncOptions`, and it is a select field |
| Writes.Apply | form-builder/src/form-engine/validator.ts:15-65 | the assignments `record[key] = message` performed in order, a later one for a key replacing an earlier one, abandoned at the first throw |
| Writes.ApplyKeys | form-builder/src/form-engine/validator.ts:49-65 | a record filled by the writes gains no key but those the writes name |
| Writes.ApplyOutside | form-builder/src/form-engine/validator.ts:49-65 | a key no assignment names keeps its earlier presence and value |
| Writes.ApplyEntry | form-builder/src/form-engine/validator.ts:49-65 | with distinct keys, a key's final entry is the last message its own rules assigned, else its earlier entry |
| Writes.ApplyThrows | form-builder/src/form-engine/validator.ts:9-66 | filling the record is abandoned exactly when some step throws |
| Validator.SubFieldOutcome | form-builder/src/form-engine/validator.ts:21-38 | the message one sub-field's three rules leave in an item (the required rule on a falsy value, the phone rule on a truthy one, then the email rule, whose message replaces the phone message), or the throw of `includes` on a truthy non-string |
| Validator.ItemErrors | form-builder/src/form-engine/validator.ts:19-40 | an item's record: the sub-field outcomes assigned in sub-field order |
| Validator.RowErrors | form-builder/src/form-engine/validator.ts:17-41 | the item records in item order, or the first throw |
| Validator.EmailOutcome | form-builder/src/form-engine/validator.ts:52-61 | the email rules on a truthy value: no "@" gives "Invalid email address", a taken address "Email already registered", otherwise the earlier message stays; a number or boolean throws |
| Validator.FieldOutcome | form-builder/src/form-engine/validator.ts:10-65 | the entry one top-level field's rules leave: the group branch (empty, throw on a truthy non-array, item records if any is non-empty) or required, email, number in that order |
| Validator.FormErrors | form-builder/src/form-engine/validator.ts:3-69 | the report: the field outcomes assigned in schema order, or the rejection when one throws |
| Validator.ValidateItem | form-builder/src/form-engine/validator.ts:19-40 | the loop over the sub-fields yields the item's record of last-assigned messages, or the throw of an email rule on a non-string |
| Validator.ValidateRows | form-builder/src/form-engine/validator.ts:17-41 | the loop over the items yields their records in order, or the first throw |
| Validator.ValidateForm | form-builder/src/form-engine/validator.ts:3-69 | the loop over the top-level fields yields the record of last-assigned entries, or the throw that rejects the promise |
| ValidatorProperties.FieldWritesKeys | form-builder/src/form-engine/validator.ts:9-10 | the rules for the top-level fields write under exactly the field ids, distinct when the ids are |
| ValidatorProperties.SubFieldWritesKeys | form-builder/src/form-engine/validator.ts:20-21 | the rules for the sub-fields write under distinct keys when the sub-field ids are distinct |
| ValidatorProperties.ReportKeysAreFieldIds | form-builder/src/form-engine/validator.ts:9-66 | every key of the report is the id of a top-level field |
| ValidatorProperties.ReportThrows | form-builder/src/form-engine/validator.ts:9-66 | the validator rejects exactly when the rules of some field throw |
| ValidatorProperties.ReportEntry | form-builder/src/form-engine/validator.ts:9-66 | with distinct ids, each field's entry is present exactly when its own rules leave a message, and is that message |
| ValidatorProperties.RequiredFieldReported | form-builder/src/form-engine/validator.ts:49-65 | a required regular field with a falsy value has exactly "<label> is required" |
| ValidatorProperties.EmailFieldReported | form-builder/src/form-engine/validator.ts:52-61 | an email string with "@" has an entry iff it is one of the two taken addresses, and the entry is "Email already registered"; a non-empty string without "@" gets "Invalid email address" |
| ValidatorProperties.EmailArrayReported | form-builder/src/form-engine/validator.ts:52-54 | an email field holding an array gets "Invalid email address", since no array of records includes "@" |
| ValidatorProperties.NumberFieldReported | form-builder/src/form-engine/validator.ts:64-65 | a truthy number-field value has an entry iff it does not convert, and the entry is "Must be a number" |
| ValidatorProperties.EmptyGroupReported | form-builder/src/form-engine/validator.ts:13-15 | an absent, falsy or empty repeatable group has "At least one entry is required" when required and no entry otherwise |
| ValidatorProperties.RowErrorsShape | form-builder/src/form-engine/validator.ts:17-41 | the item records come one per item, in item order, after those already collected, and none throws exactly when every item's rules succeed |
| ValidatorProperties.GroupReported | form-builder/src/form-engine/validator.ts:17-43 | a non-empty group's entry is present iff some item's record is non-empty, and then holds exactly one record per item in item order |
| ValidatorProperties.ItemEntry | form-builder/src/form-engine/validator.ts:20-39 | with distinct sub-field ids, a sub-field's entry in an item record is what its own rules leave |
| ValidatorProperties.AtSignFailsPhonePattern | form-builder/src/form-engine/validator.ts:29 | a string holding "@" never passes the ten-digit pattern |
| ValidatorProperties.PhoneSubFieldReported | form-builder/src/form-engine/validator.ts:26-38 | a truthy "phone" sub-field value that is not ten digits gets "Phone number must be 10 digits", when the sub-field is not email-typed or its value contains "@" (so the email rule leaves it alone) |
| ValidatorProperties.RequiredSubFieldReported | form-builder/src/form-engine/validator.ts:23-24 | a required sub-field with a falsy value gets exactly "<label> is required" |
| ValidatorProperties.EmailSubFieldOverridesPhone | form-builder/src/form-engine/validator.ts:26-38 | on an email-typed "phone" sub-field, a non-empty string without "@" ends with "Invalid email address" whether or not it is ten digits: the email assignment comes last |
| ValidatorProperties.SubFieldEmailNotChecked | form-builder/src/form-engine/validator.ts:33-38 | an email sub-field (other than "phone") holding any string with "@" gets no message: only the "@" check applies, never the uniqueness check, so the taken addresses pass too |
| ValidatorProperties.ReportIgnoresShowIf | form-builder/src/form-engine/validator.ts:9-66 | two schemas differing only in their visibility conditions give the same report |
| ValidatorProperties.EmptyDataReport | form-builder/src/form-engine/validator.ts:9-66 | the report on empty data is exactly name, email and country with their required messages |
| ValidatorProperties.NoPhonesNoEntry | form-builder/src/form-engine/schema.ts:64-69 | since `phones` is not required, absent or empty phones leave no phones entry |
| ValidatorProperties.ShortPhoneOutcome | form-builder/src/form-engine/validator.ts:17-43 | one five-digit phone gives the group a one-record entry holding the phone message |
| ValidatorProperties.ValidScalarsOutcome | form-builder/src/form-engine/validator.ts:49-65 | a filled name, a free address with "@", an absent age and a country pass their rules |
| ValidatorProperties.ShortPhoneReported | form-builder/src/form-engine/validator.ts:9-66 | a form whose only fault is a short phone has only the phones entry |
| ValidatorProperties.ValidPhonesOutcome | form-builder/src/form-engine/validator.ts:17-43 | a non-empty phones list whose every phone is ten digits leaves no phones entry |
| ValidatorProperties.PreFilledScalarsOutcome | form-builder/src/components/FormRenderer.stories.tsx:17-20 | the pre-filled name, address, age 25 and country pass their rules |
| ValidatorProperties.PreFilledReport | form-builder/src/components/FormRenderer.stories.tsx:16-22 | the pre-filled record of the stories gets an empty report |
| ValidatorProperties.ThreePhonesScalarsOutcome | form-builder/src/components/FormRenderer.stories.tsx:31-32 | the three-phone record's name and address pass; its missing country gets "Country is required" |
| ValidatorProperties.ThreePhonesReport | form-builder/src/components/FormRenderer.stories.tsx:30-38 | the three-phone record's report is exactly the country's required message |
| FormRenderer.IsVisible | form-builder/src/components/FormRenderer.tsx:117-125 | the render-time visibility test with its two early returns |
| FormRenderer.VisibleIffBothTestsPass | form-builder/src/components/FormRenderer.tsx:117-125 | a field without a condition shows; with one, it shows iff (`exists` unset or the dependency truthy) and (`equals` unset or strictly equal to the dependency) |
| FormRenderer.ExistsFalseNeverHides | form-builder/src/components/FormRenderer.tsx:119 | with `exists` false, only `equals` can hide the field |
| FormRenderer.UserFormVisibility | form-builder/src/components/FormRenderer.tsx:117-125 | in the application's form, age shows iff email is truthy and every other field always shows |
| FormRenderer.ListOrEmpty | form-builder/src/components/FormRenderer.tsx:26 | `formData[groupId] \|\| []` before `map` or `filter`: a falsy value gives [], an array its items, a truthy scalar throws; for the spread in `addGroupItem`, see the requires of `FormRenderer.FormRenderer.AddGroupItem` |
| FormRenderer.UpdateAt | form-builder/src/components/FormRenderer.tsx:26-29 | the per-item update keeps the number of items |
| FormRenderer.UpdateAtInRange | form-builder/src/components/FormRenderer.tsx:26-29 | for an index in range, only that item changes, and only in the given sub-field; the other items keep their places |
| FormRenderer.UpdateAtOutOfRange | form-builder/src/components/FormRenderer.tsx:26-29 | for an index out of range, the items are unchanged |
| FormRenderer.KeepOthers | form-builder/src/components/FormRenderer.tsx:54-56 | the index-based `filter`, positions counted from `from` |
| FormRenderer.RemoveAt | form-builder/src/components/FormRenderer.tsx:54-56 | the `filter` dropping position `index` of the items |
| FormRenderer.KeepOthersOutside | form-builder/src/components/FormRenderer.tsx:54-56 | filtering a position where no item stands keeps every item |
| FormRenderer.KeepOthersCutsOut | form-builder/src/components/FormRenderer.tsx:54-56 | filtering a position where an item stands cuts out exactly that item |
| FormRenderer.RemoveAtInRange | form-builder/src/components/FormRenderer.tsx:54-56 | removing in range: one item fewer, earlier items in place, later items one position down |
| FormRenderer.RemoveAtOutOfRange | form-builder/src/components/FormRenderer.tsx:54-56 | removing out of range leaves the items unchanged |
| FormRenderer.RemoveSecondOfThreePhones | form-builder/src/components/FormRenderer.stories.tsx:33-37 | removing index 1 of the three-phone list leaves the first and the third, in order |
| FormRenderer.NewItem | form-builder/src/components/FormRenderer.tsx:38-39 | the new item's keys are exactly the sub-field ids, each mapped to "" |
| FormRenderer.UserFormAsyncSelects | form-builder/src/components/FormRenderer.tsx:62-63 | of the application's form only `country` qualifies for the options fill |
| FormRenderer.AfterStorageEvent | form-builder/src/components/FormRenderer.tsx:92-101 | the storage handler's effect on the data, given the user's answer |
| FormRenderer.StorageEventAllOrNothing | form-builder/src/components/FormRenderer.tsx:92-101 | the data after a store event is the local or the incoming state, never a mix; it changes iff the event is for the form's key, carries data that differs, and the user confirms |
| FormRenderer.SettledErrors | form-builder/src/components/FormRenderer.tsx:15-16 | the errors once `validateForm` settles: its report, or the old errors when it rejects |
| FormRenderer.SettledErrorsKeys | form-builder/src/components/FormRenderer.tsx:15-16 | errors set from a report keep to top-level field ids |
| FormRenderer.FormRenderer.constructor | form-builder/src/components/FormRenderer.tsx:7-9 | the three pieces of state start empty |
| FormRenderer.FormRenderer.Revalidate | form-builder/src/components/FormRenderer.tsx:15-16 | the errors become the report on the current data, or stay as they were when the validator rejects |
| FormRenderer.FormRenderer.HandleChange | form-builder/src/components/FormRenderer.tsx:12-17 | the data is the old data with one key set, every other key unchanged, and the errors are revalidated on it |
| FormRenderer.FormRenderer.HandleGroupChange | form-builder/src/components/FormRenderer.tsx:20-34 | an absent group becomes []; the group becomes the per-item update of its items, the other keys unchanged, and the errors are revalidated; a truthy non-array throws with no change |
| FormRenderer.FormRenderer.AddGroupItem | form-builder/src/components/FormRenderer.tsx:37-41 | the group grows by one item, the earlier items keep their positions, and the new last item maps every sub-field id to ""; errors and the other keys are unchanged |
| FormRenderer.FormRenderer.RemoveGroupItem | form-builder/src/components/FormRenderer.tsx:53-58 | the group becomes its items without the indexed position; errors and the other keys are unchanged |
| FormRenderer.FormRenderer.LoadOptions | form-builder/src/components/FormRenderer.tsx:61-72 | exactly the select fields with `asyncOptions` get ["India","USA","Germany","Japan"]; earlier entries are kept |
| FormRenderer.FormRenderer.Hydrate | form-builder/src/components/FormRenderer.tsx:75-82 | with saved data, the data becomes it and the errors its report, or the old errors when the validator rejects and `.then(setErrors)` never runs; without, nothing changes |
| FormRenderer.FormRenderer.OnStorageEvent | form-builder/src/components/FormRenderer.tsx:90-104 | the data becomes the conflict decision's result; the errors are not touched |

## Left out

- Rendering: JSX, CSS classes, aria attributes, and the loading and placeholder texts are user interface with no state logic.
- Focusing the new input after an item is added is a deferred DOM side effect with no effect on state.
- The store and the browser:
  - Reading and writing `localStorage`, the autosave effect and the `storage` event subscription are I/O.
  - The saved data and the incoming data are parameters (`Option<FormData>`), with `None` for a missing or empty value.
  - The user's answer to the confirmation dialog is the boolean `confirmed`.
- `JSON.parse` and `JSON.stringify` are library calls:
  - A snapshot is the state itself.
  - Equal serialisations are taken to mean equal maps. That ignores two things: serialisation depends on key order, and `JSON.stringify` drops keys whose value is `undefined`, so a local key holding `undefined` makes the model see a difference where the serialisations are equal.
  - A snapshot that does not parse, or that parses to something other than an object, is not modelled.
- Timers and asynchronous interleaving:
  - The 500 ms wait before the uniqueness check is a plain membership test.
  - The options timers are taken as having fired in field order.
  - Overlapping validations, and a handler reading a stale `formData`, are not modelled, because the code does nothing about either.
- `Number()` on strings is floating-point coercion. Whether a string converts is the uninterpreted `numeric`, and numbers are integral.
- JsValues.Get, JsValues.ItemGet: an id that names a property plain objects inherit from `Object.prototype` (`constructor`, `toString`, `__proto__`, …) is read as absent, giving `undefined`. In the source such a read gives the inherited, truthy value, and assigning `errors["__proto__"]` creates no key. So the lemmas over all schemas (`ReportEntry`, `RequiredFieldReported`, `EmptyGroupReported`, `RequiredSubFieldReported`) and the dependency read in `IsVisible` hold only for ids outside `Schema.InheritedNames`. The application's ids are all outside it (`Schema.UserFormAvoidsInheritedNames`).
- Values are limited to: `undefined`; strings, integers and booleans; arrays of records of those. These are not modelled: `null`, objects as field values, nested arrays, and items that are not records.
- FormRenderer.FormRenderer.AddGroupItem: requires that the group's value is not a non-empty string. Spreading such a string gives a list of characters, which the value type cannot hold. A number or `true` throws, and that case is modelled.
- Schema well-formedness (distinct ids, a `showIf` naming an existing field) is not checked by the source. Lemmas that need distinct ids take it as a precondition, and the application's form is proved to meet it.

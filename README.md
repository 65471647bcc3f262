# Form builder: schema and form-state engine

This project is a Dafny model of the engine inside the `App` component of a
runtime form builder, with proofs about it. A user adds typed fields to a form:
text, dropdown, radio, file, checkbox, country, date, phone, and sections that
hold nested fields. The user then edits labels and options in place, fills the
form in and submits a snapshot of the entered values. The model covers:

- the field-type catalogue and the operations on the ordered list of field records:
  add, add nested, add section, delete, edit (`FieldSchema`);
- the entered values, stored at the top level or one level down under a section
  (`FormDataStore`);
- the validation rule table keyed by literal field ids (`Validation`);
- the newline join and split behind the options editor (`OptionsText`);
- the component's state as a class, `FormApp.FormBuilder`. Its fields are
  `fields`, `formData`, `errors`, `submitted` and `editing`. Each action is a
  method that stores the result of the functions above. The methods are
  adding fields, deleting, editing, validating, handling a change, the
  visibility test, the edit-mode transitions and submission.

Modelling choices:

- Ids are `Stamp(ms)`, the numbers `Date.now()` yields, or `Name(text)`, the
  strings the validation rules compare against. A number is never `===` to a
  string. The fresh id of a new field is a parameter of the action.
- A field record's keys other than `id` are `Option`s, because JavaScript keys
  may be absent. An unknown type tag spreads nothing, so the new record holds
  only its id.
- `new Date(value)` and `new Date()` enter the date rule as a `Clock`: two
  integers, the first absent for an Invalid Date.
- `if (parentId)` is JavaScript truthiness. A parent id of `0` or `""` sends
  the write to the top level.

Where the code departs from the behaviour the form builder documents, the model follows the code:

- `addNestedField` checks no type. A root entry with the section id gets a
  `fields` list even if it is not a section.
- `deleteField` and `editField` act on every root entry with the id, not only
  the first.
- A checkbox change delivers the clicked option's string (`e.target.value`),
  not a list of selected options. `Choices` is kept so that the rule table can
  also be stated for list inputs.
- `validateField` throws a TypeError when the "email" rule gets a file or no
  file, and when the "checkbox" rule gets no file. `handleChange` then stops
  before anything is stored.

## Model

| member | source | states |
|---|---|---|
| `FieldSchema.NewField` | src/App.js:31-52 | the new record has the fresh id and no condition; its type tag is the key it was looked up by; only dropdown, radio and checkbox carry options, two each; only a section carries children, an empty list; an unknown tag gives a record holding only the id |
| `FormApp.FormBuilder.constructor` | src/App.js:20-25 | the form starts with no fields, no values, no errors, no snapshot and no open edit panel |
| `FormApp.FormBuilder.AddField` | src/App.js:51-54 | the list becomes the old list plus the template record with the new id at the end; with a fresh id, ids stay unique |
| `FormApp.FormBuilder.AddSection` | src/App.js:67-70 | as AddField with "section": the last entry is a section with an empty child list |
| `FieldSchema.AddKeepsUnique` | src/App.js:51-54 | appending a field whose id is not in the tree keeps all ids distinct |
| `FieldSchema.NestUnder` | src/App.js:58-64 | the root length stays the same; every root entry with the section id, of any type, gets the new field after its existing children (or a one-child list); every other entry is unchanged; children are not searched |
| `FieldSchema.NestUnderAbsent` | src/App.js:59-63 | when no root entry has the id, the list is unchanged |
| `FieldSchema.NestKeepsUnique` | src/App.js:56-65 | nesting a field with a fresh id keeps all ids distinct, and the only new id is the new field's |
| `FormApp.FormBuilder.AddNestedField` | src/App.js:56-65 | the list becomes NestUnder of the old list with the template record; uniqueness kept for a fresh id |
| `FieldSchema.Without` | src/App.js:72-76 | no entry left has the id, the list does not grow, and an id no root entry has (a nested field's, say) leaves the list unchanged |
| `FieldSchema.WithoutKeeps` | src/App.js:72-76 | a record is in the result exactly when it is a root entry with a different id; kept entries are unchanged, children and all |
| `FieldSchema.WithoutConcat` | src/App.js:73-75 | filtering distributes over concatenation, so kept entries keep their relative order |
| `FieldSchema.WithoutTheOne` | src/App.js:72-76 | deleting the id of exactly one root entry removes that entry and nothing else |
| `FieldSchema.WithoutIds` | src/App.js:72-76 | the ids left after deleting are among the ids before, and distinct ids stay distinct |
| `FieldSchema.DeleteKeepsUnique` | src/App.js:72-76 | deleting keeps all ids distinct |
| `FormApp.FormBuilder.DeleteField` | src/App.js:72-76 | the list becomes Without of the old list; entered values and errors are left in place |
| `FieldSchema.EditAll` | src/App.js:78-84 | same length; each root entry with the id is merged with the update, every other entry is unchanged; without a `fields` key in the update, every entry's children are unchanged |
| `FieldSchema.EditTwice` | src/App.js:80-82 | two edits of an entry equal one edit with the combined update, the later keys winning, unless the first edit changes the id |
| `FieldSchema.EditIdempotent` | src/App.js:78-84 | repeating the same edit changes nothing more |
| `FieldSchema.EditAbsent` | src/App.js:78-84 | an id no root entry has, such as a nested field's, leaves the list unchanged, so a nested field's edit panel edits nothing |
| `FieldSchema.EditLabelOnly` | src/App.js:154-156 | a label edit changes the label key and no other |
| `FieldSchema.EditKeepsIds` | src/App.js:78-84 | an edit that sets neither `id` nor `fields` leaves the tree's ids as they were |
| `FormApp.FormBuilder.EditField` | src/App.js:78-84 | the list becomes EditAll of the old list; ids unchanged when the update sets neither id nor children |
| `OptionsText.Split` | src/App.js:164 | splitting on one character gives at least one piece, no piece holds the separator, and there is one piece more than separators |
| `OptionsText.SplitJoin` | src/App.js:162-164 | joining non-empty, newline-free options with a newline and splitting again gives the options back |
| `OptionsText.JoinSplit` | src/App.js:162-164 | splitting any text and joining the pieces again gives the text back |
| `FieldSchema.OptionsRoundTrip` | src/App.js:160-165 | writing back the options editor's text unchanged leaves the field as it was, for non-empty newline-free options |
| `Validation.Validate` | src/App.js:86-107 | a non-empty message only for an id with a rule, and only one of the table's six messages |
| `Validation.UnlistedIdPasses` | src/App.js:86-107 | an id outside email, phone, file, date, checkbox yields "" |
| `Validation.GeneratedIdPasses` | src/App.js:86-107 | a time-stamp id never matches a rule, so it always yields "" |
| `Validation.ThrowsExactly` | src/App.js:88-105 | the rules throw exactly for "email" with a file or no file and for "checkbox" with no file |
| `Validation.EmailRule` | src/App.js:88-90 | "email" text gets "Invalid email" exactly when it has no '@' |
| `Validation.PhoneRule` | src/App.js:91-93 | "phone" text gets "Invalid phone number" exactly when it is not ten ASCII digits |
| `Validation.FileTypeWins` | src/App.js:94-101 | a file that is too large and of a disallowed type gets the type message, which is assigned last |
| `Validation.FileSizeRule` | src/App.js:94-101 | an allowed file gets the size message exactly when it exceeds 1048576 bytes; no file passes |
| `Validation.DateRule` | src/App.js:102-104 | "date" gets the future-date message exactly when the value's time is valid and later than now |
| `Validation.CheckboxRule` | src/App.js:105-107 | "checkbox" text or a list gets the message exactly when it is empty |
| `Validation.Examples` | src/App.js:86-107 | the rule table on the literal phone, email and checkbox examples |
| `FormApp.FormBuilder.ValidateField` | src/App.js:86-109 | the sequential overwriting ifs compute the table's message and store it under the one id, other keys kept; a throw leaves the errors untouched |
| `FormDataStore.EffectiveParent` | src/App.js:115 | the write goes to the top level exactly when the parent is absent, the number 0 or the empty string; otherwise it goes under that very parent |
| `FormDataStore.Store` | src/App.js:115-128 | only the written slot changes: the top-level key, or the parent's group, in which only the child changes and the other children are kept |
| `FormDataStore.ReadAfterStore` | src/App.js:111-129 | a stored value reads back from where it was written |
| `FormDataStore.ReadOtherAfterStore` | src/App.js:116-127 | every value in another slot, including a sibling in the same section, reads as before |
| `FormDataStore.FalsyParentIsTopLevel` | src/App.js:115 | a parent id of 0 or "" writes at the top level |
| `FormApp.FormBuilder.HandleChange` | src/App.js:111-129 | validation of the same id runs first; on a message, errors gain it and the value is stored; on a throw, nothing changes |
| `FormApp.FormBuilder.ShouldShowField` | src/App.js:131-136 | a field without a condition is shown; otherwise the condition applied to the whole form data decides |
| `FormApp.FormBuilder.NewFieldsShown` | src/App.js:131-136 | every field made from the catalogue is shown whatever has been entered |
| `FormApp.FormBuilder.BeginEdit` | src/App.js:201 | the edit panel opens for the field's id, from either state |
| `FormApp.FormBuilder.SaveEdit` | src/App.js:171-172 | the panel closes; the fields are not touched |
| `FormApp.FormBuilder.CancelEdit` | src/App.js:178-179 | the same transition as Save: the panel closes and nothing is reverted |
| `FormApp.FormBuilder.EditLabel` | src/App.js:151-156 | while the panel is open, a label edit goes straight through editField; the ids and the panel stay |
| `FormApp.FormBuilder.EditOptions` | src/App.js:160-165 | while the panel is open, the text's lines go straight through editField as the options |
| `FormApp.FormBuilder.Submit` | src/App.js:556-560 | the snapshot is the form data as it is, whatever the errors hold |

## Left out

- Rendering (`renderField` markup, `renderData`, the page layout) and the dark-mode toggle: presentation only.
- `formatPhoneNumber` and the `${id}-country` lookup: display through the external phone-number library.
- The `countries` table: static external reference data.
- File previews through `URL.createObjectURL`, and `console.log` in `handleSubmit`: browser I/O.
- How `Date.now()` makes ids: the fresh id is a parameter. Two fields created in the same millisecond get the same id; the uniqueness results therefore assume a fresh id.
- Date parsing and the current time: the `Clock` parameter carries both readings.
- Decoding the DOM event in `handleChange`: the method takes the extracted value.
- React's batching and stale closures: every action is one sequential step that sees the latest state.
- JavaScript object keys are strings, so `Stamp(5)` and `Name("5")` would share a key in `formData` and `errors`; the model keeps them apart.
- An update key that is present but `undefined`: the model treats every present key as a defined value.
- A condition is a total pure function of the form data; a JavaScript condition could throw or have effects.
- FormDataStore.Store: when the parent id already holds a plain value, JavaScript spreads it (a string or a list becomes index keys, a file nothing); the model starts the parent's group from an empty map instead.
- FieldSchema.NestKeepsUnique: the ids it covers are those of root entries and their direct children, the two levels the form builds; deeper levels, reachable only through an `editField` that sets `fields`, are not checked.

# Feedback form editor — a Dafny model

This project models the in-memory form editor of a browser-based feedback-form
builder (`src/components/FeedbackForm.js`). It covers the state the editor keeps
while a form is edited:

- the ordered list of fields, each with an id, a type from the fixed
  seven-entry `fieldTypes` list, a label, a required flag, an error message,
  and an option list for the two choice types;
- which field is open in the edit view;
- whether the form is published;
- the form title.

It also covers the operations that change that state:

- adding a field, up to seven;
- merging a partial update into every field with a given id;
- deleting by id;
- the drag-and-drop reorder built from two `splice` calls;
- the option-list edits of the edit view;
- publishing.

Finally, it covers the visibility rules of the edit view: the error-message box
only for required fields, the option editor only for "Radio button" and
"Categories", and the PUBLISH button only while unpublished.

Modules, one per concept, all in dependency order:

- `Wrappers` (`wrappers.dfy`): `Option`, standing for JavaScript's `undefined`/`null`.
- `Decimal` (`decimal.dfy`): the decimal text a template literal gives a
  non-negative integer, with its round trip.
- `Splice` (`splice.dfy`): `splice(i, 1)` and `splice(j, 0, x)` on sequences,
  the reorder `Moved`, and `Reorder`, which performs the two splices in place on
  an array copy of the list.
- `Fields` (`fields.dfy`): field types, the field record, the partial update
  (`Patch`) and how it is merged, new fields, option edits, visibility predicates.
- `FieldList` (`field_list.dfy`): the list transforms as pure functions, traces
  of editor actions (`Edit`, `ApplyAll`) and the field-count cap.
- `FeedbackForm` (`feedback_form.dfy`): the component state as the class
  `FormEditor`, whose methods reassign its fields through the functions above.

In a few places the code behaves in ways a reader might not expect; the model
follows the code:

- Field ids are `field-<milliseconds>`. They are unique only when no two fields
  are added at the same clock reading. `FieldList.SameInstantAddsShareId` shows
  that two adds at the same reading share an id, and that a later delete of that
  id removes both fields. `FieldList.AddAfterDeleteFreshId` proves that a field
  added at another clock reading never carries the id just deleted.
- The option list of a choice field can become empty: removing an option
  enforces no minimum. What the editor does keep is that every choice field
  has an option list at all (`FieldList.ApplyAllKeepsChoiceOptions`).
- The seven-field bound is not an invariant of every state. A form loaded from
  the store may hold more fields. The model proves that edits never take a list
  of at most seven past seven, and never lengthen a longer one.
- "Add Option" labels the new option after the current count. After a removal,
  the new label can repeat one already in the list
  (`Fields.AddOptionMayRepeatLabel`).
- The edit view's Cancel button only closes the view. Edits are applied as they
  are typed, so Cancel undoes nothing.

## Model

| member | source | states |
|---|---|---|
| `Decimal.NatToString` | src/components/FeedbackForm.js:136 | the text of a clock reading or count is a non-empty digit string with no leading zero, and 0 is written "0" |
| `Decimal.ValueOfNatToString` | src/components/FeedbackForm.js:287 | reading the decimal text back gives the number |
| `Decimal.NatToStringInjective` | src/components/FeedbackForm.js:136 | different numbers have different decimal texts |
| `Fields.FieldTypesListed` | src/components/FeedbackForm.js:41-49 | the panel lists every field type exactly once, and type names are distinct |
| `Fields.IsChoiceTypes` | src/components/FeedbackForm.js:142 | the string test on the type holds exactly for "Radio button" and "Categories" |
| `Fields.Merge` | src/components/FeedbackForm.js:153 | `{...field, ...updates}`: each attribute present in the update replaces the field's, the others and the id and type are kept |
| `Fields.MergeIdempotent` | src/components/FeedbackForm.js:153 | merging an update twice equals merging it once; an empty update changes nothing |
| `Fields.MergeThen` | src/components/FeedbackForm.js:153 | two updates in a row equal one update that takes each attribute from the later one where it sets it and from the earlier one otherwise |
| `Fields.FieldIdInjective` | src/components/FeedbackForm.js:136 | two ids `field-${Date.now()}` are equal exactly when the clock readings are |
| `Fields.FieldId` | src/components/FeedbackForm.js:136 | the id is "field-" followed by the decimal text of the clock reading, which reads back to that reading |
| `Fields.OptionLabel` | src/components/FeedbackForm.js:287 | the label is "Option " followed by the decimal text, without leading zero, of the number |
| `Fields.FirstOptionLabel` | src/components/FeedbackForm.js:143 | a new choice field's literal "Option 1" is the first label "Add Option" would produce |
| `Fields.NewFieldDefaults` | src/components/FeedbackForm.js:135-145 | new field: id from the clock, label "New " + type name, not required, empty error message, options ["Option 1"] exactly for the two choice types, so its option editor shows exactly when it has options |
| `Fields.NewField` | src/components/FeedbackForm.js:135-145 | the new field carries the clock id and the chosen type, has an option list exactly when its option editor is shown, that list is ["Option 1"], and its error-message box is hidden |
| `Fields.SetOption` | src/components/FeedbackForm.js:263-266 | editing option i replaces only that option and keeps the length |
| `Fields.RemoveOption` | src/components/FeedbackForm.js:271-275 | removing option i drops exactly that element, keeps the rest in order, and can empty the list |
| `Fields.AddOption` | src/components/FeedbackForm.js:283-289 | appends one option after the unchanged old ones, labelled "Option " followed by the decimal text, without leading zero, of old count + 1 |
| `Fields.AddOptionThenRemove` | src/components/FeedbackForm.js:271-289 | removing the option just added restores the list; adding to an empty list gives ["Option 1"] |
| `Fields.AddOptionMayRepeatLabel` | src/components/FeedbackForm.js:287 | after removing "Option 1" from two options, "Add Option" produces a second "Option 2" |
| `Fields.RequiredPatchControlsErrorInput` | src/components/FeedbackForm.js:239-257 | setting `required` shows or hides the error-message box accordingly and leaves the option editor's visibility alone |
| `Fields.ShowsErrorMessageInput` | src/components/FeedbackForm.js:246 | the error-message box is shown exactly for a required field |
| `Fields.ShowsOptionEditor` | src/components/FeedbackForm.js:257 | the option editor is shown exactly for "Radio button" and "Categories" fields |
| `Splice.Remove` | src/components/FeedbackForm.js:165 | `splice(i, 1)`: the element at i is gone and the later ones shift down |
| `Splice.Insert` | src/components/FeedbackForm.js:166 | `splice(j, 0, x)`: x stands at j and the later ones shift up |
| `Splice.RemoveInsert` | src/components/FeedbackForm.js:165-166 | removing what was just inserted restores the sequence |
| `Splice.InsertRemove` | src/components/FeedbackForm.js:165-166 | reinserting what was just removed at its index restores the sequence |
| `Splice.MultisetRemove` | src/components/FeedbackForm.js:165 | removal takes exactly one copy of the element out |
| `Splice.MultisetInsert` | src/components/FeedbackForm.js:166 | insertion adds exactly one copy of the element |
| `Splice.Moved` | src/components/FeedbackForm.js:162-168 | the reordered list has the same length and elements, the dragged element at the destination, and all others in their old relative order |
| `Splice.MovedBack` | src/components/FeedbackForm.js:162-168 | dragging the element back to its source undoes the move |
| `Splice.MovedInPlace` | src/components/FeedbackForm.js:162-168 | dropping an element where it was picked up changes nothing |
| `Splice.SpliceOut` | src/components/FeedbackForm.js:165 | `splice(i, 1)` in place on the array copy returns the element at i and leaves `Remove` of the old contents in all but the last slot |
| `Splice.SpliceIn` | src/components/FeedbackForm.js:166 | `splice(j, 0, x)` in place on the array copy leaves `Insert` of the old contents (without the free last slot) |
| `Splice.Reorder` | src/components/FeedbackForm.js:164-166 | copying the list into an array and splicing it in place yields exactly `Moved` |
| `FieldList.AddField` | src/components/FeedbackForm.js:131-148 | at 7 or more fields the list is unchanged; below, exactly one new field is appended after the unchanged old ones; no add takes a list of at most 7 past 7 |
| `FieldList.CanAdd` | src/components/FeedbackForm.js:132 | the add guard holds exactly below seven fields |
| `FieldList.AddChangesIffEnabled` | src/components/FeedbackForm.js:396 | the add buttons are enabled exactly when adding changes the list |
| `FieldList.UpdateField` | src/components/FeedbackForm.js:150-156 | same length, same ids and types in the same order; fields whose id matches get the update merged, all others are untouched |
| `FieldList.UpdateAbsentId` | src/components/FeedbackForm.js:150-156 | updating an id no field has gives an identical list |
| `FieldList.UpdateIdempotent` | src/components/FeedbackForm.js:150-156 | repeating an update changes nothing more |
| `FieldList.RequiredUpdateShowsErrorInput` | src/components/FeedbackForm.js:239-246 | after updating `required` by id, the error-message box shows on matching fields exactly as set and is unchanged on the others |
| `FieldList.DeleteField` | src/components/FeedbackForm.js:158-160 | a field survives exactly when its id differs, survivors keep their multiplicity, and no field with the id remains |
| `FieldList.DeleteFieldAppend` | src/components/FeedbackForm.js:158-160 | deleting distributes over concatenation, so survivors keep their relative order |
| `FieldList.DeleteAbsentId` | src/components/FeedbackForm.js:158-160 | deleting an id no field has gives an identical list |
| `FieldList.DeleteIdempotent` | src/components/FeedbackForm.js:158-160 | deleting twice equals deleting once |
| `FieldList.DragEnd` | src/components/FeedbackForm.js:162-168 | no destination: no-op; otherwise a permutation of the same length with the dragged field at the destination and the others in order |
| `FieldList.ApplyAllRespectsCap` | src/components/FeedbackForm.js:131-168 | no sequence of add, update, delete and drag edits takes a list of at most 7 fields past 7 or lengthens a longer one |
| `FieldList.DeleteKeepsChoiceOptions` | src/components/FeedbackForm.js:158-160 | deleting keeps every remaining choice field supplied with an option list |
| `FieldList.DragKeepsChoiceOptions` | src/components/FeedbackForm.js:162-168 | reordering keeps every choice field supplied with an option list |
| `FieldList.ApplyKeepsChoiceOptions` | src/components/FeedbackForm.js:131-168 | every add, update, delete or drag keeps every choice field supplied with an option list |
| `FieldList.ApplyAllKeepsChoiceOptions` | src/components/FeedbackForm.js:131-168 | so does every trace of edits, so on lists the editor builds from its empty start the option editor always finds an option list |
| `FieldList.SameInstantAddsShareId` | src/components/FeedbackForm.js:136 | two adds at the same clock reading give both fields the same id, and deleting it removes both |
| `FieldList.AddAfterDeleteFreshId` | src/components/FeedbackForm.js:136-160 | a field added at another clock reading never carries the id just deleted |
| `FeedbackForm.FormEditor.constructor` | src/components/FeedbackForm.js:61-64 | the editor starts with no fields, nothing being edited, unpublished, titled "Generic Website Rating" |
| `FeedbackForm.FormEditor.InEditMode` | src/components/FeedbackForm.js:373 | a field is drawn in edit mode exactly when `editingField` holds its id |
| `FeedbackForm.FormEditor.AddButtonsEnabled` | src/components/FeedbackForm.js:396 | the add buttons are enabled exactly below seven fields |
| `FeedbackForm.FormEditor.ShowsPublishButton` | src/components/FeedbackForm.js:456 | PUBLISH is offered exactly while the form is unpublished |
| `FeedbackForm.FormEditor.AddField` | src/components/FeedbackForm.js:131-148 | the list becomes `AddField` of the old one; it grows by one exactly when the buttons were enabled; the rest of the state is kept |
| `FeedbackForm.FormEditor.UpdateField` | src/components/FeedbackForm.js:150-156 | the list becomes `UpdateField` of the old one; the rest of the state is kept |
| `FeedbackForm.FormEditor.DeleteField` | src/components/FeedbackForm.js:158-160 | the list becomes `DeleteField` of the old one; the rest of the state is kept, including an edit view open on the deleted id |
| `FeedbackForm.FormEditor.OnDragEnd` | src/components/FeedbackForm.js:162-168 | the list becomes `DragEnd` of the old one; the rest of the state is kept |
| `FeedbackForm.FormEditor.EditOption` | src/components/FeedbackForm.js:263-266 | the edited copy of the drawn field's options is merged into every field sharing its id |
| `FeedbackForm.FormEditor.RemoveOption` | src/components/FeedbackForm.js:270-276 | the drawn field's options lose exactly the chosen one, written to every field sharing its id |
| `FeedbackForm.FormEditor.AddOption` | src/components/FeedbackForm.js:282-290 | the drawn field's options gain one `Option n+1`, written to every field sharing its id |
| `FeedbackForm.FormEditor.StartEditing` | src/components/FeedbackForm.js:362 | the edit icon puts the field's id in `editingField`, so that field is drawn in edit mode |
| `FeedbackForm.FormEditor.FinishEditing` | src/components/FeedbackForm.js:297-310 | Save and Cancel both only clear `editingField`; the fields are kept as edited |
| `FeedbackForm.FormEditor.SetFormTitle` | src/components/FeedbackForm.js:327 | the title becomes the typed text; nothing else changes |
| `FeedbackForm.FormEditor.PublishForm` | src/components/FeedbackForm.js:122-123 | the flag becomes true whatever it was, a second publish changes nothing, and the PUBLISH button is no longer offered |
| `FeedbackForm.AddEveryType` | src/components/FeedbackForm.js:392-395 | pressing each add button once, in the panel's order, on an empty editor yields seven fields of those types in that order |
| `FeedbackForm.FillThenOverflow` | src/components/FeedbackForm.js:392-396 | adding one field of each of the seven types to a fresh editor fills it; the buttons are then disabled and an eighth add is ignored |

## Left out

- Store I/O is not modelled: loading a form (`getDoc`), saving (`setDoc` with
  merge, `addDoc`), the store side of publishing (`updateDoc`), recording a
  submission, and the atomic `increment` of the view and submission counters.
  These are calls into a remote database library. As a consequence, the state a
  load installs, which may be a field list of any length, is not modelled. The
  cap lemma is therefore stated for an arbitrary starting list.
- The `localStorage` submission marker, `Timestamp.now()` and `Date.now()` are
  left out as browser and clock effects. The clock reading that forms a new
  field's id is a parameter (`now`) of the add operation.
- React/MUI rendering is left out: `renderField`'s widgets, the icons, the
  drag-and-drop library itself, and the "Add Logic" switches, which store nothing
  the form uses. Only the visibility rules of the edit view and of the PUBLISH
  and add buttons are modelled.
- `src/components/Dashboard.js`, `src/components/ViewSubmissions.js` and
  `src/App.js` are not part of this model. They hold store queries, a constant
  default record, and routing.
- Field type strings outside the seven `fieldTypes` names are not modelled.
  Such a string could only come from a stored form.
- A choice field whose options are `undefined` would make the edit view throw
  while rendering. The option-edit methods require the options to be present
  and the index to be one of the rendered boxes. Lists the editor builds keep
  options on every choice field; only a stored form could lack them.
- Decimal.NatToString: gives plain digits for every number, while JavaScript
  writes numbers of 1e21 and above in exponent form; clock readings and option
  counts never come near that.
- FeedbackForm.FormEditor.OnDragEnd: requires the source and destination
  indices to lie within the list, as the drag library reports them. What
  `splice` would do with indices outside the list is not modelled.
- FeedbackForm.FillThenOverflow: states the type of each added field rather
  than its whole record.
- FeedbackForm.AddEveryType: states the type of each added field rather than
  its whole record.

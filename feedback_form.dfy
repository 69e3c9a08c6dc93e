/**
 * The `FeedbackForm` component's local state while a form is edited: the
 * ordered field list, which field is open in the edit view, whether the form
 * is published, and its title. Each handler replaces the state through its
 * setter; here each is a method that reassigns the fields it sets and states
 * the new value of every field of the state.
 */
module FeedbackForm {
  import opened Wrappers
  import opened Fields
  import FieldList
  import Splice

  /** The title shown before (or without) a stored one. */
  const DefaultTitle: string := "Generic Website Rating"

  class FormEditor {
    var fields: seq<Field>
    var editingField: Option<string>
    var isPublished: bool
    var formTitle: string

    /** The initial `useState` values. */
    constructor ()
      ensures fields == [] && editingField == None && !isPublished && formTitle == DefaultTitle
      ensures FieldList.ChoiceHasOptions(fields)
    {
      fields := [];
      editingField := None;
      isPublished := false;
      formTitle := DefaultTitle;
    }

    /** The field at position k is drawn with its edit view rather than its display widget. */
    predicate InEditMode(k: nat)
      reads this
      requires k < |fields|
    {
      editingField == Some(fields[k].id)
    }

    /** The "Add fields" buttons are enabled (not `disabled={fields.length >= 7}`). */
    predicate AddButtonsEnabled()
      reads this
    {
      FieldList.CanAdd(fields)
    }

    /** The PUBLISH button is offered only while the form is unpublished. */
    predicate ShowsPublishButton()
      reads this
    {
      !isPublished
    }

    method AddField(t: FieldType, now: nat)
      modifies this
      ensures fields == FieldList.AddField(old(fields), t, now)
      ensures old(AddButtonsEnabled()) <==> |fields| == old(|fields|) + 1
      ensures old(|fields|) <= FieldList.MaxFields ==> |fields| <= FieldList.MaxFields
      ensures editingField == old(editingField) && isPublished == old(isPublished) && formTitle == old(formTitle)
      ensures FieldList.ChoiceHasOptions(old(fields)) ==> FieldList.ChoiceHasOptions(fields)
    {
      fields := FieldList.AddField(fields, t, now);
    }

    method UpdateField(id: string, u: Patch)
      modifies this
      ensures fields == FieldList.UpdateField(old(fields), id, u)
      ensures editingField == old(editingField) && isPublished == old(isPublished) && formTitle == old(formTitle)
      ensures FieldList.ChoiceHasOptions(old(fields)) ==> FieldList.ChoiceHasOptions(fields)
    {
      fields := FieldList.UpdateField(fields, id, u);
    }

    method DeleteField(id: string)
      modifies this
      ensures fields == FieldList.DeleteField(old(fields), id)
      ensures editingField == old(editingField) && isPublished == old(isPublished) && formTitle == old(formTitle)
      ensures FieldList.ChoiceHasOptions(old(fields)) ==> FieldList.ChoiceHasOptions(fields)
    {
      fields := FieldList.DeleteField(fields, id);
    }

    /**
     * `onDragEnd`: nothing happens without a destination; otherwise a copy
     * of the list is spliced in place and installed.
     */
    method OnDragEnd(source: nat, destination: Option<nat>)
      requires FieldList.DropInRange(fields, source, destination)
      modifies this
      ensures fields == FieldList.DragEnd(old(fields), source, destination)
      ensures editingField == old(editingField) && isPublished == old(isPublished) && formTitle == old(formTitle)
      ensures FieldList.ChoiceHasOptions(old(fields)) ==> FieldList.ChoiceHasOptions(fields)
    {
      if destination.None? {
        return;
      }
      fields := Splice.Reorder(fields, source, destination.value);
    }

    /**
     * Typing into option box `index` of the field drawn at position k: the
     * edited copy of that field's options is written, through `updateField`,
     * into every field that shares its id.
     */
    method EditOption(k: nat, index: nat, value: string)
      requires k < |fields| && fields[k].options.Some? && index < |fields[k].options.value|
      modifies this
      ensures fields == FieldList.UpdateField(old(fields), old(fields[k].id),
                          OptionsPatch(SetOption(old(fields[k].options.value), index, value)))
      ensures fields[k].options == Some(SetOption(old(fields[k].options.value), index, value))
      ensures editingField == old(editingField) && isPublished == old(isPublished) && formTitle == old(formTitle)
      ensures FieldList.ChoiceHasOptions(old(fields)) ==> FieldList.ChoiceHasOptions(fields)
    {
      var opts := SetOption(fields[k].options.value, index, value);
      UpdateField(fields[k].id, OptionsPatch(opts));
    }

    /** The delete button beside option `index`; the list may become empty. */
    method RemoveOption(k: nat, index: nat)
      requires k < |fields| && fields[k].options.Some? && index < |fields[k].options.value|
      modifies this
      ensures fields == FieldList.UpdateField(old(fields), old(fields[k].id),
                          OptionsPatch(Fields.RemoveOption(old(fields[k].options.value), index)))
      ensures |fields[k].options.value| == old(|fields[k].options.value|) - 1
      ensures editingField == old(editingField) && isPublished == old(isPublished) && formTitle == old(formTitle)
      ensures FieldList.ChoiceHasOptions(old(fields)) ==> FieldList.ChoiceHasOptions(fields)
    {
      var opts := Fields.RemoveOption(fields[k].options.value, index);
      UpdateField(fields[k].id, OptionsPatch(opts));
    }

    /** "Add Option" under the option list of the field drawn at position k. */
    method AddOption(k: nat)
      requires k < |fields| && fields[k].options.Some?
      modifies this
      ensures fields == FieldList.UpdateField(old(fields), old(fields[k].id),
                          OptionsPatch(Fields.AddOption(old(fields[k].options.value))))
      ensures |fields[k].options.value| == old(|fields[k].options.value|) + 1
      ensures editingField == old(editingField) && isPublished == old(isPublished) && formTitle == old(formTitle)
      ensures FieldList.ChoiceHasOptions(old(fields)) ==> FieldList.ChoiceHasOptions(fields)
    {
      var opts := Fields.AddOption(fields[k].options.value);
      UpdateField(fields[k].id, OptionsPatch(opts));
    }

    /** The edit icon of the field at position k opens its edit view. */
    method StartEditing(k: nat)
      requires k < |fields|
      modifies this
      ensures fields == old(fields) && isPublished == old(isPublished) && formTitle == old(formTitle)
      ensures editingField == Some(fields[k].id) && InEditMode(k)
    {
      editingField := Some(fields[k].id);
    }

    /**
     * "Save" and "Cancel" in the edit view both just close it: edits were
     * applied as they were typed, so Cancel undoes nothing.
     */
    method FinishEditing()
      modifies this
      ensures editingField == None && forall k :: 0 <= k < |fields| ==> !InEditMode(k)
      ensures fields == old(fields) && isPublished == old(isPublished) && formTitle == old(formTitle)
    {
      editingField := None;
    }

    method SetFormTitle(title: string)
      modifies this
      ensures formTitle == title
      ensures fields == old(fields) && editingField == old(editingField) && isPublished == old(isPublished)
    {
      formTitle := title;
    }

    /**
     * `publishForm`'s local part: the flag becomes true whatever it was, so
     * publishing again changes nothing, and the PUBLISH button disappears.
     */
    method PublishForm()
      modifies this
      ensures isPublished && !ShowsPublishButton()
      ensures old(isPublished) ==> unchanged(this)
      ensures fields == old(fields) && editingField == old(editingField) && formTitle == old(formTitle)
    {
      isPublished := true;
    }
  }

  /** Adds one field of each type, in the panel's order, to an empty editor. */
  method AddEveryType(editor: FormEditor, clock: nat)
    requires editor.fields == []
    modifies editor
    ensures |editor.fields| == |FieldTypes|
    ensures forall i :: 0 <= i < |FieldTypes| ==> editor.fields[i].fieldType == FieldTypes[i]
  {
    var i := 0;
    while i < |FieldTypes|
      invariant 0 <= i <= |FieldTypes|
      invariant |editor.fields| == i
      invariant forall j :: 0 <= j < i ==> editor.fields[j].fieldType == FieldTypes[j]
    {
      ghost var before := editor.fields;
      editor.AddField(FieldTypes[i], clock + i);
      assert editor.fields == before + [NewField(FieldTypes[i], clock + i)];
      i := i + 1;
    }
  }

  /**
   * A session on a fresh editor: adding one field of each of the seven types
   * fills the list, the buttons are then disabled, and an eighth add is ignored.
   */
  method FillThenOverflow(clock: nat, extra: FieldType) returns (editor: FormEditor)
    ensures |editor.fields| == FieldList.MaxFields && !editor.AddButtonsEnabled()
    ensures forall i :: 0 <= i < |FieldTypes| ==> editor.fields[i].fieldType == FieldTypes[i]
  {
    editor := new FormEditor();
    AddEveryType(editor, clock);
    assert |FieldTypes| == FieldList.MaxFields;
    ghost var full := editor.fields;
    editor.AddField(extra, clock + FieldList.MaxFields);
    assert editor.fields == full;
  }

}

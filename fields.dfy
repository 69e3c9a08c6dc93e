/**
 * One field of a feedback form: its type from the fixed `fieldTypes`
 * enumeration, the record the editor stores, how a partial update is merged
 * into it (`{ ...field, ...updates }`), how a new one is made, the option-list
 * edits of the edit view, and which edit controls the view shows.
 */
module Fields {
  import opened Wrappers
  import Decimal
  import Splice

  /** The seven entries of `fieldTypes`. */
  datatype FieldType =
    | Textarea
    | NumericRating
    | StarRating
    | SmileyRating
    | SingleLineInput
    | RadioButton
    | Categories

  /** The `name` of each entry: the string stored as the field's `type`. */
  function Name(t: FieldType): string {
    match t
    case Textarea => "Textarea"
    case NumericRating => "Numeric rating"
    case StarRating => "Star rating"
    case SmileyRating => "Smiley rating"
    case SingleLineInput => "Single line input"
    case RadioButton => "Radio button"
    case Categories => "Categories"
  }

  /** `fieldTypes` in the order the "Add fields" panel lists them. */
  const FieldTypes: seq<FieldType> :=
    [Textarea, NumericRating, StarRating, SmileyRating, SingleLineInput, RadioButton, Categories]

  /** The panel offers every type exactly once, and no two types share a name. */
  lemma FieldTypesListed(t: FieldType, u: FieldType)
    ensures t in FieldTypes && multiset(FieldTypes)[t] == 1
    ensures Name(t) == Name(u) ==> t == u
  {
  }

  /** The two types whose fields carry an option list, decided on the type string. */
  predicate IsChoice(t: FieldType) {
    Name(t) == "Radio button" || Name(t) == "Categories"
  }

  lemma IsChoiceTypes(t: FieldType)
    ensures IsChoice(t) <==> t == RadioButton || t == Categories
  {
  }

  /** A field record; `options` is `undefined` (None) for the non-choice types. */
  datatype Field = Field(
    id: string,
    fieldType: FieldType,
    labelText: string,
    required: bool,
    errorMessage: string,
    options: Option<seq<string>>)

  /**
   * The `updates` object passed to `updateField`: each attribute the edit view
   * can set, present (Some) or absent (None). The view never sets `id` or `type`.
   */
  datatype Patch = Patch(
    labelText: Option<string>,
    required: Option<bool>,
    errorMessage: Option<string>,
    options: Option<seq<string>>)

  const NoChange := Patch(None, None, None, None)

  function LabelPatch(text: string): Patch { NoChange.(labelText := Some(text)) }
  function RequiredPatch(required: bool): Patch { NoChange.(required := Some(required)) }
  function ErrorMessagePatch(message: string): Patch { NoChange.(errorMessage := Some(message)) }
  function OptionsPatch(options: seq<string>): Patch { NoChange.(options := Some(options)) }

  /**
   * `{ ...field, ...updates }`: each attribute present in the patch replaces
   * the field's, every other attribute is kept; id and type never change.
   */
  function Merge(f: Field, u: Patch): (g: Field)
    ensures g.id == f.id && g.fieldType == f.fieldType
    ensures g.labelText == (if u.labelText.Some? then u.labelText.value else f.labelText)
    ensures g.required == (if u.required.Some? then u.required.value else f.required)
    ensures g.errorMessage == (if u.errorMessage.Some? then u.errorMessage.value else f.errorMessage)
    ensures g.options == (if u.options.Some? then u.options else f.options)
  {
    Field(
      f.id,
      f.fieldType,
      if u.labelText.Some? then u.labelText.value else f.labelText,
      if u.required.Some? then u.required.value else f.required,
      if u.errorMessage.Some? then u.errorMessage.value else f.errorMessage,
      if u.options.Some? then u.options else f.options)
  }

  /** Merging the same patch twice is merging it once; an empty patch changes nothing. */
  lemma MergeIdempotent(f: Field, u: Patch)
    ensures Merge(Merge(f, u), u) == Merge(f, u)
    ensures Merge(f, NoChange) == f
  {
  }

  /**
   * Two updates in a row, as one: each attribute comes from the later patch
   * where it sets it and from the earlier one otherwise.
   */
  function Then(u: Patch, v: Patch): Patch {
    Patch(
      if v.labelText.Some? then v.labelText else u.labelText,
      if v.required.Some? then v.required else u.required,
      if v.errorMessage.Some? then v.errorMessage else u.errorMessage,
      if v.options.Some? then v.options else u.options)
  }

  /** Merging two patches in a row is merging their composition: the later one wins wherever it sets an attribute. */
  lemma MergeThen(f: Field, u: Patch, v: Patch)
    ensures Merge(Merge(f, u), v) == Merge(f, Then(u, v))
  {
  }

  /** The id `field-${Date.now()}` for a clock reading of `now` milliseconds. */
  function FieldId(now: nat): (id: string)
    ensures |id| > 6 && id[..6] == "field-"
    ensures Decimal.AllDigits(id[6..]) && Decimal.Value(id[6..]) == now
    ensures id[6] == '0' ==> |id| == 7 && now == 0
  {
    var digits := Decimal.NatToString(now);
    Decimal.ValueOfNatToString(now);
    assert ("field-" + digits)[6..] == digits;
    "field-" + digits
  }

  /** Different clock readings give different ids; equal readings give equal ids. */
  lemma FieldIdInjective(a: nat, b: nat)
    ensures FieldId(a) == FieldId(b) <==> a == b
  {
    if FieldId(a) == FieldId(b) {
      assert FieldId(a)[6..] == Decimal.NatToString(a);
      assert FieldId(b)[6..] == Decimal.NatToString(b);
      Decimal.NatToStringInjective(a, b);
    }
  }

  /** The label "Add Option" gives the n-th option: `Option ${n}`. */
  function OptionLabel(n: nat): (text: string)
    ensures |text| > 7 && text[..7] == "Option "
    ensures Decimal.AllDigits(text[7..]) && Decimal.Value(text[7..]) == n
    ensures text[7] == '0' ==> |text| == 8 && n == 0
  {
    var digits := Decimal.NatToString(n);
    Decimal.ValueOfNatToString(n);
    assert ("Option " + digits)[7..] == digits;
    "Option " + digits
  }

  /** The first option label is the literal "Option 1" a new choice field starts with. */
  lemma FirstOptionLabel()
    ensures OptionLabel(1) == "Option 1"
  {
  }

  /** The field `addField(type)` appends. */
  function NewField(t: FieldType, now: nat): (f: Field)
    ensures f.id == FieldId(now) && f.fieldType == t
    ensures ShowsOptionEditor(f) <==> f.options.Some?
    ensures f.options.Some? ==> f.options.value == [OptionLabel(1)]
    ensures !ShowsErrorMessageInput(f)
  {
    FirstOptionLabel();
    Field(
      FieldId(now),
      t,
      "New " + Name(t),
      false,
      "",
      if IsChoice(t) then Some(["Option 1"]) else None)
  }

  /**
   * A new field is labelled after its type, optional, with no error message,
   * and has the single option "Option 1" exactly when its type is a choice type.
   */
  lemma NewFieldDefaults(t: FieldType, now: nat)
    ensures NewField(t, now).id == FieldId(now) && NewField(t, now).fieldType == t
    ensures NewField(t, now).labelText == "New " + Name(t)
    ensures !NewField(t, now).required && NewField(t, now).errorMessage == ""
    ensures NewField(t, now).options.Some? <==> (t == RadioButton || t == Categories)
    ensures NewField(t, now).options.Some? ==> NewField(t, now).options.value == [OptionLabel(1)]
    ensures ShowsOptionEditor(NewField(t, now)) <==> NewField(t, now).options.Some?
    ensures !ShowsErrorMessageInput(NewField(t, now))
  {
    IsChoiceTypes(t);
    FirstOptionLabel();
  }

  /** Typing `value` into the option box at `index`: only that option changes. */
  function SetOption(opts: seq<string>, index: nat, value: string): (r: seq<string>)
    requires index < |opts|
    ensures |r| == |opts| && r[index] == value
    ensures forall k :: 0 <= k < |opts| && k != index ==> r[k] == opts[k]
  {
    opts[index := value]
  }

  /** The delete button beside option `index`: `filter((_, i) => i !== index)`. */
  function RemoveOption(opts: seq<string>, index: nat): (r: seq<string>)
    requires index < |opts|
    ensures |r| == |opts| - 1
    ensures forall k :: 0 <= k < |r| ==> r[k] == opts[if k < index then k else k + 1]
    ensures |opts| == 1 ==> r == []
  {
    Splice.Remove(opts, index)
  }

  /** "Add Option": appends `Option ${n + 1}` where n is the current count. */
  function AddOption(opts: seq<string>): (r: seq<string>)
    ensures |r| == |opts| + 1 && r[..|opts|] == opts
    ensures |r[|opts|]| > 7 && r[|opts|][..7] == "Option "
    ensures Decimal.AllDigits(r[|opts|][7..]) && Decimal.Value(r[|opts|][7..]) == |opts| + 1
    ensures r[|opts|][7] != '0'
  {
    var text := OptionLabel(|opts| + 1);
    Decimal.ValueOfNatToString(|opts| + 1);
    assert text[7..] == Decimal.NatToString(|opts| + 1);
    opts + [text]
  }

  /** Removing the option just added restores the list; "Add Option" on no options gives a new field's list. */
  lemma AddOptionThenRemove(opts: seq<string>)
    ensures RemoveOption(AddOption(opts), |opts|) == opts
    ensures AddOption([]) == [OptionLabel(1)] == ["Option 1"]
  {
    assert AddOption(opts)[..|opts|] == opts;
    FirstOptionLabel();
  }

  /**
   * The label of an added option is derived from the count alone, so after a
   * removal it can repeat a label still in the list.
   */
  lemma AddOptionMayRepeatLabel()
    ensures var opts := RemoveOption([OptionLabel(1), OptionLabel(2)], 0);
            AddOption(opts) == [OptionLabel(2), OptionLabel(2)]
  {
  }

  /** The "Error Message" box is shown only for a required field. */
  predicate ShowsErrorMessageInput(f: Field) {
    f.required
  }

  /** The option editor is shown only for "Radio button" and "Categories" fields. */
  predicate ShowsOptionEditor(f: Field)
    ensures ShowsOptionEditor(f) <==> f.fieldType == RadioButton || f.fieldType == Categories
  {
    IsChoiceTypes(f.fieldType);
    IsChoice(f.fieldType)
  }

  /** Setting `required` through a patch shows or hides the error-message box accordingly. */
  lemma RequiredPatchControlsErrorInput(f: Field, required: bool)
    ensures ShowsErrorMessageInput(Merge(f, RequiredPatch(required))) == required
    ensures ShowsOptionEditor(Merge(f, RequiredPatch(required))) == ShowsOptionEditor(f)
  {
  }

}

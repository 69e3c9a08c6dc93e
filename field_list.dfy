/**
 * The editor's operations on the ordered field list, as the new list each
 * one computes before it is handed to `setFields`: add (capped at seven
 * fields), update by id, delete by id, and the drag-and-drop reorder. A trace
 * of such edits is replayed by `ApplyAll`, which carries the cap lemma.
 */
module FieldList {
  import opened Wrappers
  import opened Fields
  import Splice

  /** The "Add fields" buttons work only below this many fields. */
  const MaxFields: nat := 7

  /** `fields.length < 7`: the guard of `addField` and the negation of the buttons' `disabled`. */
  predicate CanAdd(fs: seq<Field>) {
    |fs| < MaxFields
  }

  /**
   * `addField(type)` at clock reading `now`: at seven or more fields the list
   * is returned unchanged; below that one new field goes on the end and every
   * earlier field stays where it was.
   */
  function AddField(fs: seq<Field>, t: FieldType, now: nat): (r: seq<Field>)
    ensures !CanAdd(fs) ==> r == fs
    ensures CanAdd(fs) ==> |r| == |fs| + 1 && r[..|fs|] == fs && r[|fs|] == NewField(t, now)
    ensures |r| <= if |fs| <= MaxFields then MaxFields else |fs|
  {
    if CanAdd(fs) then fs + [NewField(t, now)] else fs
  }

  /** The buttons are enabled exactly when pressing one would change the list. */
  lemma AddChangesIffEnabled(fs: seq<Field>, t: FieldType, now: nat)
    ensures AddField(fs, t, now) != fs <==> CanAdd(fs)
  {
  }

  /**
   * `fields.map(field => field.id === id ? { ...field, ...updates } : field)`:
   * same length, same ids in the same order; a field whose id matches gets
   * the patch merged in and every other field is returned as it was.
   */
  function UpdateField(fs: seq<Field>, id: string, u: Patch): (r: seq<Field>)
    ensures |r| == |fs|
    ensures forall i :: 0 <= i < |fs| ==> r[i].id == fs[i].id && r[i].fieldType == fs[i].fieldType
    ensures forall i :: 0 <= i < |fs| && fs[i].id == id ==> r[i] == Merge(fs[i], u)
    ensures forall i :: 0 <= i < |fs| && fs[i].id != id ==> r[i] == fs[i]
    decreases |fs|
  {
    if fs == [] then []
    else
      var head := if fs[0].id == id then Merge(fs[0], u) else fs[0];
      var rest := UpdateField(fs[1..], id, u);
      assert forall i :: 1 <= i < |fs| ==> ([head] + rest)[i] == rest[i - 1] && fs[i] == fs[1..][i - 1];
      [head] + rest
  }

  /** An id no field carries leaves the list as it was. */
  lemma UpdateAbsentId(fs: seq<Field>, id: string, u: Patch)
    requires forall i :: 0 <= i < |fs| ==> fs[i].id != id
    ensures UpdateField(fs, id, u) == fs
  {
  }

  /** Repeating an update changes nothing more. */
  lemma UpdateIdempotent(fs: seq<Field>, id: string, u: Patch)
    ensures UpdateField(UpdateField(fs, id, u), id, u) == UpdateField(fs, id, u)
  {
  }

  /**
   * Checking or unchecking "Required" on a field shows or hides the error
   * message box of every field with that id, and of no other field.
   */
  lemma RequiredUpdateShowsErrorInput(fs: seq<Field>, id: string, required: bool, i: nat)
    requires i < |fs|
    ensures ShowsErrorMessageInput(UpdateField(fs, id, RequiredPatch(required))[i])
            == (if fs[i].id == id then required else ShowsErrorMessageInput(fs[i]))
  {
  }

  /**
   * `fields.filter(field => field.id !== id)`: a field is kept exactly when
   * its id differs, and a kept field keeps its multiplicity.
   */
  function DeleteField(fs: seq<Field>, id: string): (r: seq<Field>)
    ensures |r| <= |fs|
    ensures forall f :: f in r <==> f in fs && f.id != id
    ensures forall f: Field :: f.id != id ==> multiset(r)[f] == multiset(fs)[f]
    ensures forall f: Field :: f.id == id ==> multiset(r)[f] == 0
    decreases |fs|
  {
    if fs == [] then []
    else
      var rest := DeleteField(fs[1..], id);
      assert fs == [fs[0]] + fs[1..];
      if fs[0].id == id then rest else [fs[0]] + rest
  }

  /**
   * Deleting distributes over concatenation, so the kept fields stay in their
   * original relative order.
   */
  lemma {:induction false} DeleteFieldAppend(a: seq<Field>, b: seq<Field>, id: string)
    ensures DeleteField(a + b, id) == DeleteField(a, id) + DeleteField(b, id)
    decreases |a|
  {
    if a == [] {
      assert a + b == b;
    } else {
      assert (a + b)[1..] == a[1..] + b;
      DeleteFieldAppend(a[1..], b, id);
    }
  }

  /** An id no field carries leaves the list as it was; deleting twice is deleting once. */
  lemma {:induction false} DeleteAbsentId(fs: seq<Field>, id: string)
    requires forall i :: 0 <= i < |fs| ==> fs[i].id != id
    ensures DeleteField(fs, id) == fs
    decreases |fs|
  {
    if fs != [] {
      DeleteAbsentId(fs[1..], id);
    }
  }

  lemma DeleteIdempotent(fs: seq<Field>, id: string)
    ensures DeleteField(DeleteField(fs, id), id) == DeleteField(fs, id)
  {
    var r := DeleteField(fs, id);
    assert forall i :: 0 <= i < |r| ==> r[i] in r;
    DeleteAbsentId(r, id);
  }

  /**
   * `onDragEnd(result)`: without a destination the list is left alone;
   * otherwise the dragged field is moved from `source` to `destination`.
   * The drag library reports indices of the list it shows.
   */
  predicate DropInRange(fs: seq<Field>, source: nat, destination: Option<nat>) {
    destination.Some? ==> source < |fs| && destination.value < |fs|
  }

  function DragEnd(fs: seq<Field>, source: nat, destination: Option<nat>): (r: seq<Field>)
    requires DropInRange(fs, source, destination)
    ensures destination.None? ==> r == fs
    ensures destination.Some? ==>
      && |r| == |fs| && multiset(r) == multiset(fs)
      && r[destination.value] == fs[source]
      && Splice.Remove(r, destination.value) == Splice.Remove(fs, source)
  {
    if destination.None? then fs else Splice.Moved(fs, source, destination.value)
  }

  /** One action of the editor on the field list. */
  datatype Edit =
    | Add(fieldType: FieldType, now: nat)
    | Update(id: string, patch: Patch)
    | Delete(id: string)
    | Drag(source: nat, destination: Option<nat>)

  predicate Admissible(fs: seq<Field>, e: Edit) {
    e.Drag? ==> DropInRange(fs, e.source, e.destination)
  }

  function Apply(fs: seq<Field>, e: Edit): seq<Field>
    requires Admissible(fs, e)
  {
    match e
    case Add(t, now) => AddField(fs, t, now)
    case Update(id, u) => UpdateField(fs, id, u)
    case Delete(id) => DeleteField(fs, id)
    case Drag(source, destination) => DragEnd(fs, source, destination)
  }

  /** Every edit of the trace is admissible in the list it is applied to. */
  predicate AdmissibleAll(fs: seq<Field>, es: seq<Edit>)
    decreases |es|
  {
    es != [] ==> Admissible(fs, es[0]) && AdmissibleAll(Apply(fs, es[0]), es[1..])
  }

  function ApplyAll(fs: seq<Field>, es: seq<Edit>): seq<Field>
    requires AdmissibleAll(fs, es)
    decreases |es|
  {
    if es == [] then fs else ApplyAll(Apply(fs, es[0]), es[1..])
  }

  /**
   * No sequence of edits takes a list of at most seven fields past seven,
   * and none lengthens a longer list (one loaded from the store).
   */
  lemma {:induction false} ApplyAllRespectsCap(fs: seq<Field>, es: seq<Edit>)
    requires AdmissibleAll(fs, es)
    ensures |ApplyAll(fs, es)| <= if |fs| <= MaxFields then MaxFields else |fs|
    decreases |es|
  {
    if es != [] {
      var next := Apply(fs, es[0]);
      assert |next| <= if |fs| <= MaxFields then MaxFields else |fs|;
      ApplyAllRespectsCap(next, es[1..]);
    }
  }

  /**
   * Every "Radio button" or "Categories" field carries an option list (which
   * may be empty): the edit view reads `field.options` for exactly these.
   */
  predicate ChoiceHasOptions(fs: seq<Field>) {
    forall i :: 0 <= i < |fs| && ShowsOptionEditor(fs[i]) ==> fs[i].options.Some?
  }

  lemma DeleteKeepsChoiceOptions(fs: seq<Field>, id: string)
    requires ChoiceHasOptions(fs)
    ensures ChoiceHasOptions(DeleteField(fs, id))
  {
    var r := DeleteField(fs, id);
    forall i | 0 <= i < |r| && ShowsOptionEditor(r[i]) ensures r[i].options.Some? {
      assert r[i] in r;
      var j :| 0 <= j < |fs| && fs[j] == r[i];
    }
  }

  lemma DragKeepsChoiceOptions(fs: seq<Field>, source: nat, destination: Option<nat>)
    requires DropInRange(fs, source, destination) && ChoiceHasOptions(fs)
    ensures ChoiceHasOptions(DragEnd(fs, source, destination))
  {
    var r := DragEnd(fs, source, destination);
    forall i | 0 <= i < |r| && ShowsOptionEditor(r[i]) ensures r[i].options.Some? {
      assert r[i] in multiset(r);
      var j :| 0 <= j < |fs| && fs[j] == r[i];
    }
  }

  /** Every edit keeps choice fields supplied with an option list. */
  lemma ApplyKeepsChoiceOptions(fs: seq<Field>, e: Edit)
    requires Admissible(fs, e) && ChoiceHasOptions(fs)
    ensures ChoiceHasOptions(Apply(fs, e))
  {
    match e
    case Add(t, now) =>
      var r := AddField(fs, t, now);
      assert forall i :: 0 <= i < |fs| ==> r[i] == fs[i];
    case Update(id, u) =>
    case Delete(id) =>
      DeleteKeepsChoiceOptions(fs, id);
    case Drag(source, destination) =>
      DragKeepsChoiceOptions(fs, source, destination);
  }

  /** So does every admissible trace of edits, starting from the editor's empty list. */
  lemma {:induction false} ApplyAllKeepsChoiceOptions(fs: seq<Field>, es: seq<Edit>)
    requires AdmissibleAll(fs, es) && ChoiceHasOptions(fs)
    ensures ChoiceHasOptions(ApplyAll(fs, es))
    decreases |es|
  {
    if es != [] {
      ApplyKeepsChoiceOptions(fs, es[0]);
      ApplyAllKeepsChoiceOptions(Apply(fs, es[0]), es[1..]);
    }
  }

  /**
   * Two fields added at the same clock reading share an id, so a later
   * delete by that id removes both: ids are not unique.
   */
  lemma SameInstantAddsShareId(fs: seq<Field>, t: FieldType, u: FieldType, now: nat)
    requires |fs| + 2 <= MaxFields
    ensures var r := AddField(AddField(fs, t, now), u, now);
            r[|fs|].id == r[|fs| + 1].id
            && |DeleteField(r, FieldId(now))| <= |fs|
  {
    var r := AddField(AddField(fs, t, now), u, now);
    assert r == fs + [NewField(t, now), NewField(u, now)];
    DeleteFieldAppend(fs, [NewField(t, now), NewField(u, now)], FieldId(now));
    DeleteFieldAppend([NewField(t, now)], [NewField(u, now)], FieldId(now));
  }

  /**
   * A field added at a clock reading other than that of a deleted field never
   * takes the deleted field's id.
   */
  lemma AddAfterDeleteFreshId(fs: seq<Field>, deleted: nat, t: FieldType, now: nat)
    requires deleted != now
    ensures forall f :: f in AddField(DeleteField(fs, FieldId(deleted)), t, now) ==> f.id != FieldId(deleted)
  {
    FieldIdInjective(deleted, now);
  }

}

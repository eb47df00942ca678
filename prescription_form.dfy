/**
 * The prescription dialog of a consultation
 * (signaid-frontend/src/components/consultation/PrescriptionForm.tsx): an
 * editable list of medicines and a notes box, saved together through
 * `onSave` or dismissed.
 */
module PrescriptionForm {
  import opened JsString
  import opened Types

  /** `keyof Medicine`. */
  datatype MedicineField = Name | Dosage | Instructions

  function GetField(m: Medicine, f: MedicineField): string {
    match f
    case Name => m.name
    case Dosage => m.dosage
    case Instructions => m.instructions
  }

  /** The medicine with field `f` set to `v`. */
  function SetField(m: Medicine, f: MedicineField, v: string): (r: Medicine)
    ensures forall g :: GetField(r, g) == if g == f then v else GetField(m, g)
  {
    match f
    case Name => m.(name := v)
    case Dosage => m.(dosage := v)
    case Instructions => m.(instructions := v)
  }

  /** `[...medicines, blank]`. */
  function AddBlank(ms: seq<Medicine>): (r: seq<Medicine>)
    ensures |r| == |ms| + 1 && r[..|ms|] == ms && r[|ms|] == BlankMedicine
  {
    ms + [BlankMedicine]
  }

  /** `medicines.filter((_, i) => i !== index)`: every entry whose position is not `index`. */
  function RemoveAt(ms: seq<Medicine>, index: int): seq<Medicine> {
    if ms == [] then []
    else RemoveAt(ms[..|ms| - 1], index) + (if |ms| - 1 != index then [ms[|ms| - 1]] else [])
  }

  /**
   * Removing deletes exactly entry `index`, keeping the others in order; an
   * index outside the list leaves it unchanged.
   */
  lemma {:induction false} RemoveAtSlices(ms: seq<Medicine>, index: int)
    ensures 0 <= index < |ms| ==> RemoveAt(ms, index) == ms[..index] + ms[index + 1..]
    ensures !(0 <= index < |ms|) ==> RemoveAt(ms, index) == ms
  {
    if ms != [] {
      var init, last := ms[..|ms| - 1], ms[|ms| - 1];
      RemoveAtSlices(init, index);
      if index == |ms| - 1 {
        assert RemoveAt(ms, index) == init + [];
        assert ms[index + 1..] == [];
      } else if 0 <= index < |ms| - 1 {
        assert init[..index] == ms[..index];
        assert init[index + 1..] + [last] == ms[index + 1..];
      } else {
        assert init + [last] == ms;
      }
    }
  }

  /** Removing an entry shortens the list by one and keeps every other entry, in order. */
  lemma RemoveAtEntries(ms: seq<Medicine>, index: int)
    requires 0 <= index < |ms|
    ensures |RemoveAt(ms, index)| == |ms| - 1
    ensures forall j :: 0 <= j < |ms| - 1 ==> RemoveAt(ms, index)[j] == if j < index then ms[j] else ms[j + 1]
  {
    RemoveAtSlices(ms, index);
  }

  /** Removing any entry shortens the list by exactly one. */
  lemma RemoveAtLengths(ms: seq<Medicine>)
    ensures forall i :: 0 <= i < |ms| ==> |RemoveAt(ms, i)| == |ms| - 1
  {
    forall i | 0 <= i < |ms|
      ensures |RemoveAt(ms, i)| == |ms| - 1
    {
      RemoveAtEntries(ms, i);
    }
  }

  /** Removing the entry just added restores the list. */
  lemma RemoveUndoesAdd(ms: seq<Medicine>)
    ensures RemoveAt(AddBlank(ms), |ms|) == ms
  {
    RemoveAtSlices(AddBlank(ms), |ms|);
  }

  /**
   * `handleMedicineChange`: field `f` of entry `index` becomes `v`. The
   * handler throws for an index outside the list, and the state is then
   * not updated.
   */
  function ChangeAt(ms: seq<Medicine>, index: int, f: MedicineField, v: string): seq<Medicine> {
    if 0 <= index < |ms| then ms[index := SetField(ms[index], f, v)] else ms
  }

  /**
   * A change sets only field `f` of entry `index`: the length, the other
   * entries and the other fields are unchanged.
   */
  lemma ChangeAtOnly(ms: seq<Medicine>, index: int, f: MedicineField, v: string)
    ensures |ChangeAt(ms, index, f, v)| == |ms|
    ensures forall j, g :: 0 <= j < |ms| ==>
      GetField(ChangeAt(ms, index, f, v)[j], g) == if j == index && g == f then v else GetField(ms[j], g)
  {
  }

  /** What the dialog hands to its parent on Save. */
  datatype SaveCall = SaveCall(medicines: seq<Medicine>, notes: string)

  /** The callbacks one button press fires: `onSave` (if any), then `onClose` (if requested). */
  datatype Callbacks = Callbacks(onSave: Option<SaveCall>, onClose: bool)

  /** The `medicines` and `notes` state cells of the dialog. */
  class Form {
    var medicines: seq<Medicine>
    var notes: string

    /** One blank medicine; the notes start as the consultation's existing notes. */
    constructor (existingNotes: string)
      ensures medicines == [BlankMedicine] && notes == existingNotes
    {
      medicines := [BlankMedicine];
      notes := existingNotes;
    }

    /** The delete control of every entry is disabled while only one entry remains. */
    predicate RemoveDisabled()
      reads this
      ensures RemoveDisabled() <==> exists i :: 0 <= i < |medicines| && RemoveAt(medicines, i) == []
    {
      RemoveAtLengths(medicines);
      if |medicines| == 1 then
        assert RemoveAt(medicines, 0) == [];
        true
      else
        false
    }

    /** `handleAddMedicine`. */
    method AddMedicine()
      modifies this`medicines
      ensures medicines == AddBlank(old(medicines))
    {
      medicines := medicines + [BlankMedicine];
    }

    /** `handleRemoveMedicine`. */
    method RemoveMedicine(index: int)
      modifies this`medicines
      ensures medicines == RemoveAt(old(medicines), index)
    {
      var kept: seq<Medicine> := [];
      var i := 0;
      while i < |medicines|
        invariant 0 <= i <= |medicines|
        invariant kept == RemoveAt(medicines[..i], index)
      {
        assert medicines[..i + 1][..i] == medicines[..i];
        if i != index {
          kept := kept + [medicines[i]];
        }
        i := i + 1;
      }
      assert medicines[..|medicines|] == medicines;
      medicines := kept;
    }

    /**
     * A click on the delete control of entry `index` (one of the entries on
     * screen): nothing happens while it is disabled, so the list never
     * becomes empty.
     */
    method ClickRemove(index: int)
      requires 0 <= index < |medicines|
      modifies this`medicines
      ensures old(RemoveDisabled()) ==> medicines == old(medicines)
      ensures !old(RemoveDisabled()) ==> medicines == old(medicines)[..index] + old(medicines)[index + 1..]
      ensures |medicines| >= 1
    {
      if !RemoveDisabled() {
        RemoveAtSlices(medicines, index);
        RemoveMedicine(index);
      }
    }

    /** `handleMedicineChange`. */
    method ChangeMedicine(index: int, f: MedicineField, v: string)
      modifies this`medicines
      ensures medicines == ChangeAt(old(medicines), index, f, v)
    {
      if 0 <= index < |medicines| {
        medicines := medicines[index := SetField(medicines[index], f, v)];
      }
    }

    /** The notes box. */
    method SetNotes(v: string)
      modifies this`notes
      ensures notes == v
    {
      notes := v;
    }

    /** `handleSave`: hands the current medicines and notes to `onSave`, then closes. */
    method Save() returns (c: Callbacks)
      ensures c.onSave == Some(SaveCall(medicines, notes)) && c.onClose
    {
      c := Callbacks(Some(SaveCall(medicines, notes)), true);
    }

    /** Cancel closes without saving. */
    method Cancel() returns (c: Callbacks)
      ensures c.onSave.None? && c.onClose
    {
      c := Callbacks(None, true);
    }
  }
}

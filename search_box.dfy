/**
 * The patient search on the landing page
 * (signaid-frontend/src/components/landing/SearchBox.tsx): a CNIC field and
 * a Search button; only a complete CNIC is looked up, and the lookup's
 * answer decides which of the two callbacks runs.
 */
module SearchBox {
  import opened JsString
  import opened Types
  import CnicInput

  const InvalidCnicMessage: string := "Please enter a valid CNIC in the format: 12345-6789012-3"
  const SearchFailedMessage: string := "An error occurred while searching for the patient."

  /**
   * How the lookup by CNIC ends: with the store's answer, or by throwing.
   * (`getPatientByCNIC` of the mock store always answers; the page is
   * written for a lookup that may fail.)
   */
  datatype Lookup = Answered(response: Response<PatientRecord>) | Threw

  /** The callback a search runs. */
  datatype Callback = PatientFound(patient: PatientRecord) | PatientNotFound(cnic: string)

  /** The callback the lookup's outcome selects, if any. */
  function CallbackFor(outcome: Lookup, cnic: string): (c: Option<Callback>)
    ensures c.None? <==> outcome.Threw?
    ensures c.Some? && c.value.PatientFound? <==> outcome.Answered? && outcome.response.Ok?
    ensures c.Some? && c.value.PatientFound? ==> c.value.patient == outcome.response.data
    ensures c.Some? && c.value.PatientNotFound? ==> c.value.cnic == cnic
  {
    match outcome
    case Threw => None
    case Answered(Ok(p)) => Some(PatientFound(p))
    case Answered(Err(_)) => Some(PatientNotFound(cnic))
  }

  /** The search box: the CNIC hook and the `loading` state cell. */
  class Box {
    const input: CnicInput.CnicField
    var loading: bool

    constructor ()
      ensures input.value == "" && input.error.None? && !loading
      ensures fresh(input)
    {
      input := new CnicInput.CnicField("");
      loading := false;
    }

    /** The Search button is disabled while loading or while the field is empty. */
    predicate SearchDisabled()
      reads this, input
      ensures !loading && input.IsValid() ==> !SearchDisabled()
    {
      loading || input.value == ""
    }

    /** Typing into the field. */
    method Type(typed: string)
      modifies input
      ensures input.value == CnicInput.Format(typed)
      ensures input.error == CnicInput.ErrorFor(input.value)
    {
      input.HandleChange(typed);
    }

    /**
     * `handleSearch`: an incomplete CNIC gets the format message and is not
     * looked up. A complete one is looked up with the field's value as
     * shown (hyphens included); a found patient goes to `onPatientFound`,
     * any other answer to `onPatientNotFound` with that value, and a throw
     * sets the generic message and runs neither. Loading ends either way.
     */
    method HandleSearch(lookup: string -> Lookup) returns (queried: Option<string>, called: Option<Callback>)
      modifies this`loading, input`error
      ensures input.value == old(input.value)
      ensures !input.IsValid() ==>
        queried.None? && called.None? && input.error == Some(InvalidCnicMessage) && loading == old(loading)
      ensures input.IsValid() ==>
        && queried == Some(input.value)
        && called == CallbackFor(lookup(input.value), input.value)
        && !loading
        && input.error == if lookup(input.value).Threw? then Some(SearchFailedMessage) else old(input.error)
    {
      if !input.IsValid() {
        input.SetError(Some(InvalidCnicMessage));
        return None, None;
      }
      loading := true;
      queried := Some(input.value);
      var outcome := lookup(input.value);
      match outcome {
        case Threw =>
          input.SetError(Some(SearchFailedMessage));
          called := None;
        case Answered(response) =>
          if response.Ok? {
            called := Some(PatientFound(response.data));
          } else {
            called := Some(PatientNotFound(input.value));
          }
      }
      loading := false;
    }
  }
}

/**
 * The consultation screen (signaid-frontend/src/pages/ConsultationPage.tsx):
 * it loads the patient, starts a consultation in the mock store, then takes
 * messages from the doctor and the patient in turn, shows who is typing,
 * keeps the prescription and notes from the prescription dialog, and can be
 * marked complete.
 */
module ConsultationPage {
  import opened JsString
  import opened Types
  import MockData

  const LoadPatientError: string := "Failed to load patient data"
  const WelcomeText: string := "Welcome to your consultation. Dr. Smith will be assisting you today."
  const WelcomeId: string := "welcome"

  /** The system message every transcript starts with. */
  function Welcome(timestamp: string): (m: Message)
    ensures m.sender == System
  {
    Message(WelcomeId, System, WelcomeText, timestamp)
  }

  /**
   * Turn taking: after a message from one party the next message comes
   * from the other, and `next` is the party whose turn it is.
   */
  predicate Alternating(ms: seq<Message>, next: Sender) {
    && next != System
    && (forall i :: 0 <= i < |ms| - 1 && ms[i].sender != System ==> ms[i + 1].sender == OtherParty(ms[i].sender))
    && (ms != [] && ms[|ms| - 1].sender != System ==> next == OtherParty(ms[|ms| - 1].sender))
  }

  /** A message sent by the party whose turn it is keeps the turns alternating. */
  lemma AlternatingSnoc(ms: seq<Message>, next: Sender, m: Message)
    requires Alternating(ms, next) && m.sender == next
    ensures Alternating(ms + [m], OtherParty(next))
  {
    var ms' := ms + [m];
    forall i | 0 <= i < |ms'| - 1 && ms'[i].sender != System
      ensures ms'[i + 1].sender == OtherParty(ms'[i].sender)
    {
      if i < |ms| - 1 {
        assert ms'[i] == ms[i] && ms'[i + 1] == ms[i + 1];
      }
    }
  }

  /** A transcript that is only the welcome message allows either party to speak first. */
  lemma WelcomeAlternates(timestamp: string, next: Sender)
    requires next != System
    ensures Alternating([Welcome(timestamp)], next)
  {
  }

  /** The page's state cells; `patientId` is the route parameter. */
  class Page {
    const patientId: string
    var patient: Option<PatientRecord>
    var loading: bool
    var error: Option<string>
    var messages: seq<Message>
    var consultationId: Option<string>
    var doctorTyping: bool
    var patientTyping: bool
    var currentSpeaker: Sender
    var consultationNotes: string
    var isPrescriptionFormOpen: bool
    var prescription: seq<Medicine>
    var isCompleted: bool

    /** The page as first rendered: loading, nothing loaded, the doctor to speak. */
    constructor (patientId: string)
      ensures this.patientId == patientId
      ensures loading && error.None? && patient.None? && messages == [] && consultationId.None?
      ensures !doctorTyping && !patientTyping && currentSpeaker == Doctor
      ensures consultationNotes == "" && !isPrescriptionFormOpen && prescription == [] && !isCompleted
    {
      this.patientId := patientId;
      patient := None;
      loading := true;
      error := None;
      messages := [];
      consultationId := None;
      doctorTyping := false;
      patientTyping := false;
      currentSpeaker := Doctor;
      consultationNotes := "";
      isPrescriptionFormOpen := false;
      prescription := [];
      isCompleted := false;
    }

    /** The turn-taking invariant of the transcript. */
    predicate TurnTaking()
      reads this
    {
      Alternating(messages, currentSpeaker)
    }

    /**
     * `fetchPatientAndStartConsultation`: an unknown patient sets the error
     * and starts nothing; otherwise a consultation is started in the store
     * and the transcript becomes the welcome message alone. Either way
     * loading ends.
     */
    method Load(store: MockData.Store, now: string)
      requires store.Valid()
      modifies this`patient, this`loading, this`error, this`consultationId, this`messages
      modifies store`consultations, store`nextConsultationId
      ensures store.Valid() && !loading
      ensures old(TurnTaking()) ==> TurnTaking()
      ensures old(store.PatientIndex(patientId)).None? ==>
        && error == Some(LoadPatientError)
        && patient == old(patient) && messages == old(messages) && consultationId == old(consultationId)
        && store.consultations == old(store.consultations)
      ensures old(store.PatientIndex(patientId)).Some? ==>
        && patient == Some(old(store.patients)[old(store.PatientIndex(patientId)).value])
        && error == old(error)
        && consultationId == Some(MockData.ConsultationId(old(store.nextConsultationId)))
        && store.ConsultationIndex(consultationId.value) == Some(|old(store.consultations)|)
        && store.consultations[|old(store.consultations)|].patientId == patientId
        && messages == [Welcome(now)]
    {
      loading := true;
      var patientResponse := store.GetPatientById(patientId);
      if patientResponse.Err? {
        error := Some(LoadPatientError);
        loading := false;
        return;
      }
      patient := Some(patientResponse.data);
      BeginConsultation(store, now);
      loading := false;
    }

    /**
     * The second step of loading: a consultation is started in the store
     * for this patient and the transcript becomes the welcome message. The
     * mock store always starts the consultation, so the page's
     * `Failed to start consultation` branch is never taken.
     */
    method BeginConsultation(store: MockData.Store, now: string)
      requires store.Valid()
      modifies this`consultationId, this`messages
      modifies store`consultations, store`nextConsultationId
      ensures store.Valid()
      ensures old(TurnTaking()) ==> TurnTaking()
      ensures consultationId == Some(MockData.ConsultationId(old(store.nextConsultationId)))
      ensures store.ConsultationIndex(consultationId.value) == Some(|old(store.consultations)|)
      ensures store.consultations[|old(store.consultations)|].patientId == patientId
      ensures messages == [Welcome(now)]
    {
      var consultationResponse := store.StartConsultation(patientId);
      consultationId := Some(consultationResponse.data.id);
      messages := [Welcome(now)];
      if currentSpeaker != System {
        WelcomeAlternates(now, currentSpeaker);
      }
    }

    /** `!content.trim() || !consultationId`: the message is dropped. */
    predicate Rejects(content: string)
      reads this
    {
      Trim(content) == "" || consultationId.None? || consultationId.value == ""
    }

    /**
     * `handleSendMessage`: a blank message, or one sent before a
     * consultation exists, changes nothing. Otherwise the message is
     * appended to the transcript as typed, the other party gets the turn,
     * and the message is added to the consultation in the store.
     */
    method HandleSendMessage(store: MockData.Store, content: string, sender: Sender, id: string, timestamp: string)
      requires sender != System
      requires store.Valid()
      modifies this`messages, this`currentSpeaker, store`consultations
      ensures store.Valid()
      ensures old(Rejects(content)) ==>
        messages == old(messages) && currentSpeaker == old(currentSpeaker) && store.consultations == old(store.consultations)
      ensures !old(Rejects(content)) ==>
        && messages == old(messages) + [Message(id, sender, content, timestamp)]
        && currentSpeaker == OtherParty(sender)
        && (old(store.ConsultationIndex(consultationId.value)).Some? ==>
              var k := old(store.ConsultationIndex(consultationId.value)).value;
              store.consultations == old(store.consultations)[k := old(store.consultations)[k].(messages := old(store.consultations)[k].messages + [Message(id, sender, content, timestamp)])])
        && (old(store.ConsultationIndex(consultationId.value)).None? ==> store.consultations == old(store.consultations))
    {
      if Rejects(content) {
        return;
      }
      var newMessage := Message(id, sender, content, timestamp);
      messages := messages + [newMessage];
      currentSpeaker := if sender == Doctor then Patient else Doctor;
      var _ := store.AddMessage(consultationId.value, newMessage);
    }

    /** The message box sends as whoever's turn it is, so the turns keep alternating. */
    method SendAsCurrentSpeaker(store: MockData.Store, text: string, id: string, timestamp: string)
      requires store.Valid() && TurnTaking()
      modifies this`messages, this`currentSpeaker, store`consultations
      ensures store.Valid() && TurnTaking()
      ensures old(Rejects(text)) ==> messages == old(messages) && currentSpeaker == old(currentSpeaker)
      ensures !old(Rejects(text)) ==>
        messages == old(messages) + [Message(id, old(currentSpeaker), text, timestamp)] && currentSpeaker == OtherParty(old(currentSpeaker))
    {
      ghost var before := messages;
      ghost var speaker := currentSpeaker;
      HandleSendMessage(store, text, currentSpeaker, id, timestamp);
      if !old(Rejects(text)) {
        AlternatingSnoc(before, speaker, Message(id, speaker, text, timestamp));
      }
    }

    /** `handleTypingStart`: sets only the given party's flag. */
    method HandleTypingStart(sender: Sender)
      requires sender != System
      modifies this`doctorTyping, this`patientTyping
      ensures sender == Doctor ==> doctorTyping && patientTyping == old(patientTyping)
      ensures sender == Patient ==> patientTyping && doctorTyping == old(doctorTyping)
    {
      if sender == Doctor {
        doctorTyping := true;
      } else {
        patientTyping := true;
      }
    }

    /** `handleTypingEnd`: clears only the given party's flag. */
    method HandleTypingEnd(sender: Sender)
      requires sender != System
      modifies this`doctorTyping, this`patientTyping
      ensures sender == Doctor ==> !doctorTyping && patientTyping == old(patientTyping)
      ensures sender == Patient ==> !patientTyping && doctorTyping == old(doctorTyping)
    {
      if sender == Doctor {
        doctorTyping := false;
      } else {
        patientTyping := false;
      }
    }

    /** The prescription button opens the dialog; its `onClose` closes it. */
    method SetPrescriptionFormOpen(open: bool)
      modifies this`isPrescriptionFormOpen
      ensures isPrescriptionFormOpen == open
    {
      isPrescriptionFormOpen := open;
    }

    /** `handlePrescriptionSave`: keeps the dialog's medicines and notes. */
    method HandlePrescriptionSave(medicines: seq<Medicine>, notes: string)
      modifies this`prescription, this`consultationNotes
      ensures prescription == medicines && consultationNotes == notes
    {
      prescription := medicines;
      consultationNotes := notes;
    }

    /** The complete button is disabled once the consultation is completed. */
    predicate CompleteDisabled()
      reads this
    {
      isCompleted
    }

    /**
     * A click on the complete button: marks the consultation completed (a
     * disabled button ignores the click). The store's consultation is not
     * touched.
     */
    method ClickComplete()
      modifies this`isCompleted
      ensures isCompleted && CompleteDisabled()
    {
      if !CompleteDisabled() {
        isCompleted := true;
      }
    }
  }
}

/**
 * The chat screen of the first front end (frontend/src/components/ChatPage.tsx):
 * a message box, a Patient/Doctor switch and the list of messages sent.
 */
module ChatPage {
  import opened JsString

  /** One entry of the message list. */
  datatype ChatMessage = ChatMessage(text: string, isPatient: bool, timestamp: string)

  /** The `input`, `isPatient` and `messages` state cells. */
  class Chat {
    var input: string
    var isPatient: bool
    var messages: seq<ChatMessage>

    /** An empty box, no messages, the switch on Patient. */
    constructor ()
      ensures input == "" && isPatient && messages == []
    {
      input := "";
      isPatient := true;
      messages := [];
    }

    /** Typing into the message box. */
    method SetInput(v: string)
      modifies this`input
      ensures input == v
    {
      input := v;
    }

    /** The Patient/Doctor switch. */
    method Toggle()
      modifies this`isPatient
      ensures isPatient == !old(isPatient)
    {
      isPatient := !isPatient;
    }

    /**
     * `handleSubmit`: a box that is blank once trimmed changes nothing.
     * Otherwise the box's text (untrimmed) is appended with the current
     * side, the box is cleared, and a doctor's message hands the switch
     * back to the patient.
     */
    method HandleSubmit(timestamp: string)
      modifies this`input, this`isPatient, this`messages
      ensures Trim(old(input)) == "" ==>
        input == old(input) && isPatient == old(isPatient) && messages == old(messages)
      ensures Trim(old(input)) != "" ==>
        && messages == old(messages) + [ChatMessage(old(input), old(isPatient), timestamp)]
        && input == ""
        && isPatient
    {
      if Trim(input) == "" {
        return;
      }
      var newMessage := ChatMessage(input, isPatient, timestamp);
      messages := messages + [newMessage];
      input := "";
      if !isPatient {
        isPatient := true;
      }
    }
  }
}

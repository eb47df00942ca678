# SignAid front-end logic, modelled in Dafny

SignAid is a prototype for doctor–patient consultations in Pakistan Sign
Language. Under its React pages and Flask servers sit a few small pieces of
sequential logic. This project models them and proves what they promise:

- **CNIC field** (`useCnicInput`). Keystrokes are reduced to at most 13
  digits and laid out as `12345-6789012-3`. The module also covers the error
  message, the raw value and the validity test.
- **Mock store** (`mockData.ts`). Three in-memory tables (patients,
  consultations, prescriptions) with counters that number new rows. Rows are
  found by key and updated in place. A missing consultation leaves every
  table unchanged.
- **Text-to-SiGML builder** (`textToSIGML`). Text is lower-cased, stripped of
  punctuation and split on spaces. The output holds one `<sign_manual>`
  element per non-blank word, between `<sigml>` and `</sigml>`.
- **Translation page script** (`static/js/script.js`). Two buttons and a
  result line form an Idle/Pending state machine. The fetched JSON is
  classified as translation, HamNoSys notation, service error or transport
  error.
- **Prescription dialog**. A list of medicines that can be added to, removed
  from and edited by index, plus a notes box. Both are saved together.
- **Speech input box**. Final and interim recognition transcripts are merged
  into the text box. Only non-blank text is sent, with Enter or the send
  button.
- **Consultation page**. It loads the patient, starts a consultation and
  alternates the doctor's and the patient's messages. It also shows typing
  indicators, keeps the saved prescription and notes, and can be completed.
- **Landing-page search** (`SearchBox`). Only a complete CNIC is looked up,
  and the answer decides which callback runs.
- **Chat page of the first front end**. A message box, a Patient/Doctor
  switch and a message list.

Each source file is one Dafny module. Two modules are shared:

- `JsString` holds the JavaScript string semantics the code relies on:
  - the classes `\d`, `\w` and `\s`;
  - `trim`, `toLowerCase`, `split(' ')` and `join(' ')`;
  - decimal rendering of numbers;
  - `find` and `filter`.
- `Types` holds the shared records.

State that the source changes in place is modelled as classes:

- React state cells;
- the store's module-level arrays and counters;
- the DOM fields the script writes.

Their handlers are methods whose postconditions state the new state. Pure
decisions are functions, and the lemmas connect the two.

Several things are parameters of the handlers:

- the store's answers where a page awaits them;
- the outcome of `fetch`;
- speech-recognition events;
- timestamps and generated message ids.

## Model

| member | source | states |
|---|---|---|
| CnicInput.DigitsOnly | signaid-frontend/src/hooks/useCnicInput.ts:16 | removing every non-digit leaves only digits, and never lengthens the text |
| CnicInput.Kept | signaid-frontend/src/hooks/useCnicInput.ts:16-19 | the kept digits are the first (at most 13) digits of the input, in order; with fewer than 13 digits, all of them are kept |
| CnicInput.Format | signaid-frontend/src/hooks/useCnicInput.ts:12-31 | the displayed value has at most 15 characters, each a digit or a hyphen |
| CnicInput.FormatLayout | signaid-frontend/src/hooks/useCnicInput.ts:22-31 | for n kept digits the value has n, n+1 or n+2 characters; the hyphens sit exactly at position 5 (when n > 5) and position 13 (when n = 13) |
| CnicInput.RawValueRoundTrip | signaid-frontend/src/hooks/useCnicInput.ts:16-31 | reading the digits back out of the displayed value gives exactly the kept digits |
| CnicInput.FormatIdempotent | signaid-frontend/src/hooks/useCnicInput.ts:12-33 | formatting an already formatted value returns it unchanged |
| CnicInput.ErrorRule | signaid-frontend/src/hooks/useCnicInput.ts:36-40 | the format error is shown exactly when 1 to 12 digits were kept; it is the fixed CNIC message |
| CnicInput.ValidIffComplete | signaid-frontend/src/hooks/useCnicInput.ts:36-51 | 13 kept digits, a 15-character value, a raw value of 13 digits, and a non-empty value with no error are all the same condition |
| CnicInput.CnicField.constructor | signaid-frontend/src/hooks/useCnicInput.ts:7-9 | the field starts with the initial value and no error |
| CnicInput.CnicField.HandleChange | signaid-frontend/src/hooks/useCnicInput.ts:12-41 | the field shows the formatted input with its error; its raw value is the kept digits, and it is valid exactly when 13 digits were kept |
| CnicInput.CnicField.SetValue | signaid-frontend/src/hooks/useCnicInput.ts:8 | the `setValue` the hook exposes sets the value and nothing else |
| CnicInput.CnicField.SetError | signaid-frontend/src/hooks/useCnicInput.ts:9 | the `setError` the hook exposes sets the error and nothing else |
| CnicInput.CnicField.IsValid | signaid-frontend/src/hooks/useCnicInput.ts:49-51 | a valid value has at least 13 characters; a value the field itself displays is valid exactly when it is the complete 15-character CNIC |
| CnicInput.CnicField.GetRawValue | signaid-frontend/src/hooks/useCnicInput.ts:44-46 | the raw value holds only digits and is no longer than the value |
| MockData.SerialIdsDistinct | signaid-frontend/src/services/mockData.ts:35 | identifiers built from one prefix and two different counter values differ |
| MockData.ConsultationIdsDistinct | signaid-frontend/src/services/mockData.ts:100 | successive consultation identifiers are distinct |
| MockData.PatientAndPrescriptionIdsOverlap | signaid-frontend/src/services/mockData.ts:35 | patient n and prescription n carry the same identifier, so the two identifier sets are not disjoint |
| MockData.OrEmpty | signaid-frontend/src/services/mockData.ts:38 | a given past-prescriptions text is kept; a missing one becomes the empty text |
| MockData.NewPatientFound | signaid-frontend/src/services/mockData.ts:34-40 | a patient appended with the next identifier keeps the table numbered and is the row an identifier search finds |
| MockData.NewConsultationFound | signaid-frontend/src/services/mockData.ts:99-106 | a consultation appended with the next identifier keeps the table numbered, has an identifier no earlier row has, and is the row a search finds |
| MockData.OwnListGrows | signaid-frontend/src/services/mockData.ts:196-199 | adding a listed prescription to its own patient's list keeps every patient's list made of that patient's prescriptions |
| MockData.Store.constructor | signaid-frontend/src/services/mockData.ts:4-8 | the store starts with empty tables and consistent counters |
| MockData.Store.GetPatientByCnic | signaid-frontend/src/services/mockData.ts:53-71 | finds the earliest-registered patient whose CNIC is exactly the one given; fails with 'Patient not found' exactly when no patient has it |
| MockData.Store.GetPatientById | signaid-frontend/src/services/mockData.ts:74-92 | a found patient has the identifier asked for and is in the table; fails with 'Patient not found' exactly when no patient has it |
| MockData.Store.GetPatientPrescriptions | signaid-frontend/src/services/mockData.ts:213-225 | always succeeds, with exactly the prescriptions made out to that patient |
| MockData.Store.RegisterPatient | signaid-frontend/src/services/mockData.ts:32-50 | appends the patient numbered by the counter, with no prescriptions and past prescriptions defaulting to ''; a later identifier lookup finds it; a duplicate CNIC is accepted and every earlier CNIC answer is unchanged |
| MockData.Store.StartConsultation | signaid-frontend/src/services/mockData.ts:97-117 | appends an active consultation with no messages, numbered by the counter; its identifier is new, and a lookup finds the new row |
| MockData.Store.UpdateNotes | signaid-frontend/src/services/mockData.ts:120-139 | an unknown consultation gives 'Consultation not found' and changes nothing; a known one changes only its notes |
| MockData.Store.SavePrescription | signaid-frontend/src/services/mockData.ts:142-155 | an unknown consultation changes nothing; a known one changes only its prescription and notes |
| MockData.Store.CompleteConsultation | signaid-frontend/src/services/mockData.ts:157-170 | an unknown consultation changes nothing; a known one only becomes completed, with the completion time recorded |
| MockData.Store.AddMessage | signaid-frontend/src/services/mockData.ts:172-183 | an unknown consultation changes nothing; a known one gets the message at the end of its messages |
| MockData.Store.CreatePrescription | signaid-frontend/src/services/mockData.ts:187-210 | appends the numbered prescription whether or not the patient exists; an existing patient's own list gains it at the end; each patient's prescription answer grows only at the end |
| Sigml.TextToSigml | signaid-frontend/src/utils/sigmlUtils.ts:5-28 | the loop builds exactly the document of the text: it starts with `<sigml>` and ends with `</sigml>` |
| Sigml.EmittedIsSigns | signaid-frontend/src/utils/sigmlUtils.ts:17-23 | after any prefix of the words, the markup is `<sigml>` followed by one sign per non-blank word, in order |
| Sigml.SpaceRunsAddNothing | signaid-frontend/src/utils/sigmlUtils.ts:14-23 | a second space between two parts of the text adds no element |
| Sigml.BlankYieldsEmptyDocument | signaid-frontend/src/utils/sigmlUtils.ts:11-25 | text that is blank once cleaned (including empty text) yields exactly `<sigml></sigml>` |
| Sigml.PunctuationOnlyYieldsEmptyDocument | signaid-frontend/src/utils/sigmlUtils.ts:11-25 | text made only of punctuation yields exactly `<sigml></sigml>` |
| Sigml.CaseInsensitive | signaid-frontend/src/utils/sigmlUtils.ts:11 | lower-casing the text first does not change the output |
| Sigml.PunctuationInsensitive | signaid-frontend/src/utils/sigmlUtils.ts:11 | removing characters that are neither word characters nor whitespace does not change the output |
| Sigml.KelvinSignIsNotPunctuation | signaid-frontend/src/utils/sigmlUtils.ts:11 | the Kelvin sign is removed as punctuation, but lower-casing first turns it into `k`, so the punctuation rule has this exception |
| Sigml.LocationChars | signaid-frontend/src/utils/sigmlUtils.ts:11-21 | every location holds only `[a-z0-9_]` and whitespace other than the plain space |
| Sigml.LocationsWellFormed | signaid-frontend/src/utils/sigmlUtils.ts:21 | no location attribute contains `"`, `<` or `>`, so the markup stays well formed |
| TranslateScript.ResultText | static/js/script.js:28-41 | the line shows the failure text exactly when the request or its parsing failed, and starts with 'PSL Translation: ' exactly when the body has a truthy translation |
| TranslateScript.EmptyArrayAndObjectFields | static/js/script.js:30-36 | an empty array in `translation` is truthy and shows an empty translation; an object in `hamnosys` shows as `[object Object]`; an array in `error` shows its elements joined by commas, with `null` shown as nothing |
| TranslateScript.ResultTextRoundTrip | static/js/script.js:28-41 | the result line can be read back as the answer the outcome stands for (translation, notation, service error or transport error) |
| TranslateScript.TranslationTakesPrecedence | static/js/script.js:30-31 | a truthy translation is shown as 'PSL Translation: …' whatever the notation and error fields hold |
| TranslateScript.ServiceErrorShownOnlyWithoutResult | static/js/script.js:30-36 | the service error is shown exactly when the body parsed and neither translation nor notation is truthy; a body with none of the three shows 'Error: undefined' |
| TranslateScript.Page.constructor | static/js/script.js:42-47 | the page starts idle, with an empty input and result |
| TranslateScript.Page.ProcessRequest | static/js/script.js:9-27 | entering Pending disables both buttons, shows 'Translating...' and 'Fetching...', clears the result and sends the request |
| TranslateScript.Page.ClickTranslate | static/js/script.js:1-3 | the translate button posts `{sentence: v}` to `/translate`; a disabled button does nothing |
| TranslateScript.Page.ClickHamnosys | static/js/script.js:5-7 | the HamNoSys button posts `{word: v}` to `/hamnosys` with the same input value; a disabled button does nothing |
| TranslateScript.Page.Settle | static/js/script.js:28-47 | whatever the outcome, the page returns to Idle with both buttons enabled and their labels restored; the result line shows the outcome's answer |
| PrescriptionForm.SetField | signaid-frontend/src/components/consultation/PrescriptionForm.tsx:56 | only the named field takes the new value |
| PrescriptionForm.AddBlank | signaid-frontend/src/components/consultation/PrescriptionForm.tsx:43 | one blank medicine is appended and the earlier entries are unchanged |
| PrescriptionForm.RemoveAtSlices | signaid-frontend/src/components/consultation/PrescriptionForm.tsx:46-48 | removing deletes exactly entry i and keeps the rest in order; an index outside the list leaves it unchanged |
| PrescriptionForm.RemoveAtEntries | signaid-frontend/src/components/consultation/PrescriptionForm.tsx:46-48 | removing entry i shortens the list by one and shifts only the later entries |
| PrescriptionForm.RemoveUndoesAdd | signaid-frontend/src/components/consultation/PrescriptionForm.tsx:42-48 | removing the entry just added restores the list |
| PrescriptionForm.ChangeAtOnly | signaid-frontend/src/components/consultation/PrescriptionForm.tsx:50-58 | a change sets only field f of entry i; the length, the other entries and the other fields are unchanged |
| PrescriptionForm.Form.constructor | signaid-frontend/src/components/consultation/PrescriptionForm.tsx:37-40 | the dialog starts with one blank medicine and the existing notes |
| PrescriptionForm.Form.RemoveDisabled | signaid-frontend/src/components/consultation/PrescriptionForm.tsx:118 | the delete controls are disabled exactly when removing some entry would leave the list empty |
| PrescriptionForm.Form.AddMedicine | signaid-frontend/src/components/consultation/PrescriptionForm.tsx:42-44 | the list becomes the old list with one blank entry at the end |
| PrescriptionForm.Form.RemoveMedicine | signaid-frontend/src/components/consultation/PrescriptionForm.tsx:46-48 | the filtering loop leaves exactly the list without entry i |
| PrescriptionForm.Form.ClickRemove | signaid-frontend/src/components/consultation/PrescriptionForm.tsx:113-119 | while one entry remains the control is disabled and nothing changes; otherwise entry i is removed; the list never becomes empty |
| PrescriptionForm.Form.ChangeMedicine | signaid-frontend/src/components/consultation/PrescriptionForm.tsx:50-58 | the list becomes the old list with field f of entry i changed |
| PrescriptionForm.Form.SetNotes | signaid-frontend/src/components/consultation/PrescriptionForm.tsx:40 | the notes box sets the notes and nothing else |
| PrescriptionForm.Form.Save | signaid-frontend/src/components/consultation/PrescriptionForm.tsx:60-63 | the current medicines and notes go to `onSave`, then the dialog closes |
| PrescriptionForm.Form.Cancel | signaid-frontend/src/components/consultation/PrescriptionForm.tsx:150 | the dialog closes without calling `onSave` |
| SpeechToText.CollectTranscripts | signaid-frontend/src/components/consultation/SpeechToText.tsx:51-62 | the loop joins, in order, the final and the interim transcripts of the results from the result index on; together they hold every new transcript character |
| SpeechToText.TranscriptsPartition | signaid-frontend/src/components/consultation/SpeechToText.tsx:54-61 | the final and interim texts together are as long as all the transcripts |
| SpeechToText.TranscriptsAreFiltered | signaid-frontend/src/components/consultation/SpeechToText.tsx:54-61 | each transcript lands in the text of its own kind, in order: the final text is the transcripts of exactly the final results, the interim text those of exactly the others |
| SpeechToText.AllFinalTranscripts | signaid-frontend/src/components/consultation/SpeechToText.tsx:54-61 | when every result is final, the final text is all the transcripts and the interim text is empty |
| SpeechToText.Merged | signaid-frontend/src/components/consultation/SpeechToText.tsx:64-76 | an event with no text leaves the box as it was; an event with final or interim text always leaves the box ending in one space |
| SpeechToText.FinalMerge | signaid-frontend/src/components/consultation/SpeechToText.tsx:64-65 | final text makes the box the previous text, then the final text, then one space; interim text in the same event is ignored |
| SpeechToText.InterimMerge | signaid-frontend/src/components/consultation/SpeechToText.tsx:70-74 | interim text replaces the last space-separated word of the trimmed box and is followed by one space; when the trimmed box has no space, the box becomes the interim text and a space |
| SpeechToText.EmptyEventKeepsText | signaid-frontend/src/components/consultation/SpeechToText.tsx:64-76 | an event with neither final nor interim text leaves the box unchanged |
| SpeechToText.InterimRepeatsEarlierWords | signaid-frontend/src/components/consultation/SpeechToText.tsx:70-74 | an interim result that grows from `w1 w2` to `w1 w2 w3` leaves `w1 w1 w2 w3 `, because only the last word is replaced |
| SpeechToText.InterimOverwritesFinalWord | signaid-frontend/src/components/consultation/SpeechToText.tsx:64-74 | an interim result right after a final word replaces that final word |
| SpeechToText.SpeechInput.constructor | signaid-frontend/src/components/consultation/SpeechToText.tsx:29-30 | the box starts empty and not listening; which typing callbacks were given is fixed |
| SpeechToText.SpeechInput.SendDisabled | signaid-frontend/src/components/consultation/SpeechToText.tsx:186 | the send button is disabled exactly when every character of the box is whitespace |
| SpeechToText.SpeechInput.OnStart | signaid-frontend/src/components/consultation/SpeechToText.tsx:42-44 | recognition starting sets the listening flag |
| SpeechToText.SpeechInput.OnEnd | signaid-frontend/src/components/consultation/SpeechToText.tsx:46-48 | recognition ending clears the listening flag |
| SpeechToText.SpeechInput.OnResult | signaid-frontend/src/components/consultation/SpeechToText.tsx:50-77 | the box becomes the merge of the event's final and interim texts; final text signals typing start and schedules typing end, interim text only signals typing start |
| SpeechToText.SpeechInput.HandleInputChange | signaid-frontend/src/components/consultation/SpeechToText.tsx:120-127 | the box takes the typed value; a non-empty value while not listening signals typing start, and an empty value signals typing end |
| SpeechToText.SpeechInput.HandleSend | signaid-frontend/src/components/consultation/SpeechToText.tsx:129-135 | with a blank box (the disabled send button) nothing happens; otherwise the trimmed text is sent, the box is cleared and typing end is signalled; a sent text is never blank and never starts or ends with whitespace |
| SpeechToText.SpeechInput.HandleKeyPress | signaid-frontend/src/components/consultation/SpeechToText.tsx:137-142 | Enter without Shift suppresses the default and sends as the send button does; any other key changes nothing |
| ConsultationPage.AlternatingSnoc | signaid-frontend/src/pages/ConsultationPage.tsx:120-123 | a message from the party whose turn it is keeps the transcript alternating and hands the turn to the other party |
| ConsultationPage.WelcomeAlternates | signaid-frontend/src/pages/ConsultationPage.tsx:83-90 | a transcript holding only the welcome message lets either party speak first |
| ConsultationPage.Page.constructor | signaid-frontend/src/pages/ConsultationPage.tsx:39-52 | the page starts loading, with nothing loaded and the doctor to speak |
| ConsultationPage.Page.Load | signaid-frontend/src/pages/ConsultationPage.tsx:57-101 | an unknown patient sets 'Failed to load patient data' and starts nothing; otherwise the patient is shown, a consultation for them is started in the store, and the transcript is the welcome message alone; loading ends either way and turn taking is preserved |
| ConsultationPage.Page.BeginConsultation | signaid-frontend/src/pages/ConsultationPage.tsx:72-90 | the consultation started in the store is the new last row, for this patient; its identifier is kept and the transcript becomes the welcome message |
| ConsultationPage.Page.HandleSendMessage | signaid-frontend/src/pages/ConsultationPage.tsx:109-131 | blank content, or no consultation yet, changes nothing; otherwise the untrimmed message is appended with its sender, the other party gets the turn, and the store's consultation gets the message |
| ConsultationPage.Page.SendAsCurrentSpeaker | signaid-frontend/src/pages/ConsultationPage.tsx:477-478 | input is sent as the party whose turn it is, so the doctor's and patient's messages keep alternating |
| ConsultationPage.Page.HandleTypingStart | signaid-frontend/src/pages/ConsultationPage.tsx:134-140 | sets only the given party's typing flag |
| ConsultationPage.Page.HandleTypingEnd | signaid-frontend/src/pages/ConsultationPage.tsx:142-148 | clears only the given party's typing flag |
| ConsultationPage.Page.SetPrescriptionFormOpen | signaid-frontend/src/pages/ConsultationPage.tsx:267 | the prescription button opens the dialog, and its close callback closes it |
| ConsultationPage.Page.HandlePrescriptionSave | signaid-frontend/src/pages/ConsultationPage.tsx:156-162 | keeps the dialog's medicines and notes |
| ConsultationPage.Page.ClickComplete | signaid-frontend/src/pages/ConsultationPage.tsx:164-181 | the consultation is marked completed, which disables the complete button from then on |
| SearchBox.CallbackFor | signaid-frontend/src/components/landing/SearchBox.tsx:30-37 | a found patient runs only `onPatientFound` with that patient; any other answer runs only `onPatientNotFound` with the value; a throw runs neither |
| SearchBox.Box.constructor | signaid-frontend/src/components/landing/SearchBox.tsx:13-14 | the box starts with an empty field, no error and not loading |
| SearchBox.Box.SearchDisabled | signaid-frontend/src/components/landing/SearchBox.tsx:76 | a complete CNIC can always be searched for while no search is running |
| SearchBox.Box.Type | signaid-frontend/src/components/landing/SearchBox.tsx:62 | typing formats the field and sets its error as the CNIC field does |
| SearchBox.Box.HandleSearch | signaid-frontend/src/components/landing/SearchBox.tsx:16-41 | an incomplete CNIC gets the format message and no lookup; a complete one is looked up with the hyphenated value as shown, the answer selects the callback, a throw sets the generic message, and loading ends |
| ChatPage.Chat.constructor | frontend/src/components/ChatPage.tsx:9-11 | an empty box, no messages, the switch on Patient |
| ChatPage.Chat.SetInput | frontend/src/components/ChatPage.tsx:58 | the box takes the typed value |
| ChatPage.Chat.Toggle | frontend/src/components/ChatPage.tsx:81 | the switch flips between Patient and Doctor |
| ChatPage.Chat.HandleSubmit | frontend/src/components/ChatPage.tsx:15-33 | a blank box changes nothing; otherwise the untrimmed text is appended with the current side, the box is cleared, and the switch ends on Patient |
| JsString.TrimBlank | signaid-frontend/src/components/consultation/SpeechToText.tsx:130 | trimming gives the empty text exactly when every character is whitespace |
| JsString.TrimEnds | signaid-frontend/src/components/consultation/SpeechToText.tsx:131 | trimmed text is empty or neither starts nor ends with whitespace |
| JsString.JoinSplit | signaid-frontend/src/components/consultation/SpeechToText.tsx:72 | joining the pieces of a space split with single spaces restores the text |
| JsString.JoinDropLastSplit | signaid-frontend/src/components/consultation/SpeechToText.tsx:72 | dropping the last piece of a space split and joining the rest gives the text before its last space, or the empty text when it has no space |
| JsString.SplitAtSpace | signaid-frontend/src/utils/sigmlUtils.ts:14 | splitting text that has a space in it gives the pieces of the part before, then the pieces of the part after |
| JsString.ToLowerIdempotent | signaid-frontend/src/utils/sigmlUtils.ts:11 | lower-casing twice is lower-casing once |
| JsString.NatToStringInjective | signaid-frontend/src/services/mockData.ts:35 | different counter values render as different decimal texts |
| JsString.FilterMembers | signaid-frontend/src/services/mockData.ts:215 | a filter keeps exactly the elements that satisfy the condition |
| JsString.FindFirst | signaid-frontend/src/services/mockData.ts:55 | a search finds the first element that satisfies the condition, and finds nothing exactly when none does |

## Left out

- Browser and timing effects are not modelled:
  - the `SpeechRecognition` object and its start and stop (`toggleListening`);
  - `setTimeout` delays (typing end after 500 ms, the redirect after completion);
  - scrolling, navigation and console logging;
  - rendering and styling.
- These values are opaque parameters: timestamps (`new Date().toISOString()`, `completedAt`) and message ids (`msg_${Date.now()}`).
- The HTTP layer and the Python services are not part of this model: the Flask servers, the translation models, `api.ts` and `speechToText.ts`.
- In the translation page script, `fetch` and `response.json()` are collapsed into one outcome parameter (rejected, `null` body, or parsed fields).
- TranslateScript.Display: JSON numbers are integers only. Fractional numbers and JavaScript's exponent notation for large numbers are not rendered. Arrays and objects are modelled (both truthy; an array shows its elements joined by commas, an object shows `[object Object]`), but an object's own properties are never read.
- TranslateScript.Page.constructor: the page's first state comes from the HTML template, which is not part of this model. The model assumes the template shows the labels the script restores after every request, with an empty box and result line.
- `script.js` posts whatever the box holds, an empty sentence included. The model does the same.
- JsString.ToLower: models JavaScript's `toLowerCase` exactly for `A`–`Z`, the Kelvin sign and `İ` (capital I with dot above). Every other character is kept unchanged. Full Unicode case mapping is not modelled. The only difference this can make to the output is in letters that the punctuation filter removes anyway.
- Sigml.PunctuationInsensitive: proved only for text without the Kelvin sign and `İ`. Lower-casing those two produces ASCII word characters, so removing them as punctuation first changes the output, as `Sigml.KelvinSignIsNotPunctuation` shows.
- ConsultationPage.Page.Load: the 'Failed to start consultation' branch and the 'An unexpected error occurred' catch branch are not modelled. The mock store's `startConsultation` and `getPatientById` always answer, so neither branch is ever taken.
- ConsultationPage.Page.HandleSendMessage: the catch branch only logs, and the store's `addMessage` never throws, so it is not modelled.
- ConsultationPage.Page.ClickComplete: the page's completion handler only logs the consultation. It never calls the store's `completeConsultation`, and the model does not either.
- SearchBox.Box.HandleSearch: the store lookup is a function parameter (`string -> Lookup`). The mock `getPatientByCNIC` never throws, but the page is written for a lookup that may.
- PrescriptionForm.Form.ChangeMedicine: `handleMedicineChange` copies only the array. The entry object it edits is shared with the previous state, so the earlier array changes too. The model treats medicines as values, so this aliasing is not captured. An index outside the list throws in the source; in the model it leaves the list unchanged.
- MockData.Store: every method of the store is `async` in the source but has no await inside, so each runs to completion. Their `try`/`catch` branches cannot be reached and are not modelled.
- MockData.Store: the source returns the stored row objects themselves. A later in-place update shows through an answer a caller already holds: a patient's `prescriptions.push`, or a consultation's `notes`, `prescription` and `status` updates. The model's answers are value snapshots taken when the call returns, so this aliasing is not captured.
- MockData.Store: the counters are unbounded whole numbers. In JavaScript, `nextPatientId++` stops increasing above 2^53, and `${n}` switches to exponent notation from 10^21. `SerialIdsDistinct` and `ConsultationIdsDistinct` therefore hold only below those bounds.
- JsString: a Dafny `string` is a sequence of Unicode scalar values, while a JavaScript string is a sequence of UTF-16 code units. Lone surrogates, and lengths or slices that count the two halves of an astral character separately, are not modelled.
- On the chat page of the first front end, the notes dialog state (`isNotesOpen`, `notes`) is presentation only and is not modelled.

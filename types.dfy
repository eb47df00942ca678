/**
 * The records the front end passes around (signaid-frontend/src/types/index.ts),
 * and the medicine entry that the consultation form, the consultation page
 * and the mock store each declare with the same three fields.
 */
module Types {
  import opened JsString

  datatype Gender = Male | Female | OtherGender

  /** `'doctor' | 'patient' | 'system'`. */
  datatype Sender = Doctor | Patient | System

  /** The two parties who take turns in a consultation. */
  function OtherParty(s: Sender): (r: Sender)
    requires s != System
    ensures r != System && r != s
  {
    if s == Doctor then Patient else Doctor
  }

  /** A medicine as listed on a prescription (`Medicine` in types/index.ts). */
  datatype PrescribedMedicine = PrescribedMedicine(name: string, dosage: string, frequency: string, duration: string)

  datatype Prescription = Prescription(
    id: string,
    patientId: string,
    date: string,
    medicines: seq<PrescribedMedicine>,
    instructions: string,
    doctorNotes: string)

  datatype PatientRecord = PatientRecord(
    id: string,
    cnic: string,
    name: string,
    age: int,
    gender: Gender,
    medicalHistory: string,
    allergies: string,
    previousTreatments: string,
    bloodType: string,
    prescriptions: seq<Prescription>,
    pastPrescriptions: Option<string>)

  datatype Message = Message(id: string, sender: Sender, content: string, timestamp: string)

  /** A medicine line of the consultation's prescription form. */
  datatype Medicine = Medicine(name: string, dosage: string, instructions: string)

  const BlankMedicine: Medicine := Medicine("", "", "")

  /**
   * `ApiResponse<T>`: the mock store always answers either
   * `{ success: true, data }` or `{ success: false, error }`.
   */
  datatype Response<T> = Ok(data: T) | Err(error: string)
}

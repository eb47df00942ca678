/**
 * The in-memory mock store (signaid-frontend/src/services/mockData.ts): three
 * tables (patients, consultations, prescriptions) and three counters that
 * number new rows. Each call is one method or function of `Store`.
 */
module MockData {
  import opened JsString
  import opened Types

  const PatientNotFound: string := "Patient not found"
  const ConsultationNotFound: string := "Consultation not found"

  datatype Status = Active | Completed

  /** `ConsultationData`: a consultation as the store keeps it. */
  datatype ConsultationData = ConsultationData(
    id: string,
    patientId: string,
    messages: seq<Message>,
    prescription: Option<seq<Medicine>>,
    notes: Option<string>,
    status: Status,
    completedAt: Option<string>)

  /** What `registerPatient` is given: a patient without `id` and `prescriptions`. */
  datatype PatientData = PatientData(
    cnic: string,
    name: string,
    age: int,
    gender: Gender,
    medicalHistory: string,
    allergies: string,
    previousTreatments: string,
    bloodType: string,
    pastPrescriptions: Option<string>)

  /** What `createPrescription` is given: a prescription without `id`. */
  datatype PrescriptionData = PrescriptionData(
    patientId: string,
    date: string,
    medicines: seq<PrescribedMedicine>,
    instructions: string,
    doctorNotes: string)

  /** A template-literal identifier: a fixed prefix and a counter value. */
  function SerialId(prefix: string, n: nat): string {
    prefix + NatToString(n)
  }

  function PatientId(n: nat): string { SerialId("P", n) }

  function ConsultationId(n: nat): string { SerialId("consultation_", n) }

  function PrescriptionId(n: nat): string { SerialId("P", n) }

  /** Identifiers drawn from different counter values differ. */
  lemma SerialIdsDistinct(prefix: string, m: nat, n: nat)
    requires m != n
    ensures SerialId(prefix, m) != SerialId(prefix, n)
  {
    if SerialId(prefix, m) == SerialId(prefix, n) {
      PrefixedNumberInjective(prefix, m, n);
    }
  }

  /** Successive consultations get distinct identifiers. */
  lemma ConsultationIdsDistinct(m: nat, n: nat)
    requires m != n
    ensures ConsultationId(m) != ConsultationId(n)
  {
    SerialIdsDistinct("consultation_", m, n);
  }

  /**
   * Patient and prescription identifiers share the prefix `P`, so the two
   * sets of identifiers overlap: the first patient and the first
   * prescription are both `P1`.
   */
  lemma PatientAndPrescriptionIdsOverlap(n: nat)
    ensures PatientId(n) == PrescriptionId(n)
  {
  }

  /** `patientData.pastPrescriptions || ''`. */
  function OrEmpty(s: Option<string>): (r: string)
    ensures s.Some? ==> r == s.value
    ensures s.None? ==> r == ""
  {
    if s.Some? && s.value != "" then s.value else ""
  }

  /** Row i of the patient table carries the identifier numbered i + 1. */
  ghost predicate PatientsNumbered(ps: seq<PatientRecord>) {
    forall i :: 0 <= i < |ps| ==> ps[i].id == PatientId(i + 1)
  }

  ghost predicate ConsultationsNumbered(cs: seq<ConsultationData>) {
    forall i :: 0 <= i < |cs| ==> cs[i].id == ConsultationId(i + 1)
  }

  ghost predicate PrescriptionsNumbered(qs: seq<Prescription>) {
    forall i :: 0 <= i < |qs| ==> qs[i].id == PrescriptionId(i + 1)
  }

  /**
   * Each patient's own prescription list holds only prescriptions of the
   * global table that are made out to that patient.
   */
  ghost predicate OwnListsListed(ps: seq<PatientRecord>, qs: seq<Prescription>) {
    forall i, j :: 0 <= i < |ps| && 0 <= j < |ps[i].prescriptions| ==>
      ps[i].prescriptions[j] in qs && ps[i].prescriptions[j].patientId == ps[i].id
  }

  /**
   * A patient appended with the next identifier keeps the table numbered,
   * and is the one an identifier search finds: no earlier row carries that
   * identifier.
   */
  lemma NewPatientFound(ps: seq<PatientRecord>, p: PatientRecord)
    requires PatientsNumbered(ps)
    requires p.id == PatientId(|ps| + 1)
    ensures PatientsNumbered(ps + [p])
    ensures FindFirst(ps + [p], (q: PatientRecord) => q.id == p.id) == Some(|ps|)
  {
    forall i | 0 <= i < |ps|
      ensures ps[i].id != p.id
    {
      SerialIdsDistinct("P", i + 1, |ps| + 1);
    }
    forall i | 0 <= i < |ps| + 1
      ensures (ps + [p])[i].id == PatientId(i + 1)
    {
      if i < |ps| {
        assert (ps + [p])[i] == ps[i];
      }
    }
    FindFirstSnoc(ps, p, (q: PatientRecord) => q.id == p.id);
    assert FindFirst(ps, (q: PatientRecord) => q.id == p.id).None?;
  }

  /** A patient without prescriptions keeps the own lists consistent. */
  lemma OwnListsAfterRegister(ps: seq<PatientRecord>, qs: seq<Prescription>, p: PatientRecord)
    requires OwnListsListed(ps, qs)
    requires p.prescriptions == []
    ensures OwnListsListed(ps + [p], qs)
  {
    assert forall i :: 0 <= i < |ps| ==> (ps + [p])[i] == ps[i];
  }

  /**
   * A consultation appended with the next identifier keeps the table
   * numbered, carries an identifier no earlier row has, and is the one an
   * identifier search finds.
   */
  lemma NewConsultationFound(cs: seq<ConsultationData>, c: ConsultationData)
    requires ConsultationsNumbered(cs)
    requires c.id == ConsultationId(|cs| + 1)
    ensures ConsultationsNumbered(cs + [c])
    ensures forall i :: 0 <= i < |cs| ==> cs[i].id != c.id
    ensures FindFirst(cs + [c], (d: ConsultationData) => d.id == c.id) == Some(|cs|)
  {
    forall i | 0 <= i < |cs|
      ensures cs[i].id != c.id
    {
      ConsultationIdsDistinct(i + 1, |cs| + 1);
    }
    forall i | 0 <= i < |cs| + 1
      ensures (cs + [c])[i].id == ConsultationId(i + 1)
    {
      if i < |cs| {
        assert (cs + [c])[i] == cs[i];
      }
    }
    FindFirstSnoc(cs, c, (d: ConsultationData) => d.id == c.id);
    assert FindFirst(cs, (d: ConsultationData) => d.id == c.id).None?;
  }

  /** Replacing a consultation row by one with the same identifier keeps the table numbered. */
  lemma ConsultationReplaced(cs: seq<ConsultationData>, k: nat, c: ConsultationData)
    requires ConsultationsNumbered(cs) && k < |cs| && c.id == cs[k].id
    ensures ConsultationsNumbered(cs[k := c])
  {
  }

  /** A prescription appended with the next identifier keeps the table numbered and the own lists listed. */
  lemma PrescriptionAppended(ps: seq<PatientRecord>, qs: seq<Prescription>, q: Prescription)
    requires PrescriptionsNumbered(qs) && OwnListsListed(ps, qs)
    requires q.id == PrescriptionId(|qs| + 1)
    ensures PrescriptionsNumbered(qs + [q]) && OwnListsListed(ps, qs + [q])
  {
    assert forall i :: 0 <= i < |qs| ==> (qs + [q])[i] == qs[i];
  }

  /**
   * Appending a listed prescription made out to patient k to that patient's
   * own list keeps the patient table numbered and the own lists listed.
   */
  lemma OwnListGrows(ps: seq<PatientRecord>, qs: seq<Prescription>, k: nat, q: Prescription)
    requires PatientsNumbered(ps) && OwnListsListed(ps, qs)
    requires k < |ps| && q in qs && q.patientId == ps[k].id
    ensures PatientsNumbered(ps[k := ps[k].(prescriptions := ps[k].prescriptions + [q])])
    ensures OwnListsListed(ps[k := ps[k].(prescriptions := ps[k].prescriptions + [q])], qs)
  {
    var ps' := ps[k := ps[k].(prescriptions := ps[k].prescriptions + [q])];
    forall i, j | 0 <= i < |ps'| && 0 <= j < |ps'[i].prescriptions|
      ensures ps'[i].prescriptions[j] in qs && ps'[i].prescriptions[j].patientId == ps'[i].id
    {
      if i == k && j == |ps[k].prescriptions| {
        assert ps'[i].prescriptions[j] == q;
      } else if i == k {
        assert ps'[i].prescriptions[j] == ps[k].prescriptions[j];
      }
    }
  }

  class Store {
    var patients: seq<PatientRecord>
    var prescriptions: seq<Prescription>
    var consultations: seq<ConsultationData>
    var nextPatientId: nat
    var nextConsultationId: nat
    var nextPrescriptionId: nat

    /**
     * Each counter is one past the number of rows of its table, row i of
     * each table carries the identifier numbered i + 1, and a patient's own
     * prescription list holds only prescriptions of the global table made
     * out to that patient.
     */
    ghost predicate Valid()
      reads this
    {
      && nextPatientId == |patients| + 1
      && nextConsultationId == |consultations| + 1
      && nextPrescriptionId == |prescriptions| + 1
      && PatientsNumbered(patients)
      && ConsultationsNumbered(consultations)
      && PrescriptionsNumbered(prescriptions)
      && OwnListsListed(patients, prescriptions)
    }

    /** The module-level initial state: empty tables, every counter at 1. */
    constructor ()
      ensures Valid()
      ensures patients == [] && prescriptions == [] && consultations == []
    {
      patients, prescriptions, consultations := [], [], [];
      nextPatientId, nextConsultationId, nextPrescriptionId := 1, 1, 1;
    }

    // ------------------------------------------------------------ lookups

    /** The row of the first patient with identifier `id`, if any. */
    function PatientIndex(id: string): Option<nat>
      reads this
    {
      FindFirst(patients, (p: PatientRecord) => p.id == id)
    }

    /** The row of the first consultation with identifier `id`, if any. */
    function ConsultationIndex(id: string): Option<nat>
      reads this
    {
      FindFirst(consultations, (c: ConsultationData) => c.id == id)
    }

    /**
     * `getPatientByCNIC`: the earliest-registered patient whose CNIC is
     * exactly `cnic`, or 'Patient not found'.
     */
    function GetPatientByCnic(cnic: string): (r: Response<PatientRecord>)
      reads this
      ensures r.Err? <==> forall i :: 0 <= i < |patients| ==> patients[i].cnic != cnic
      ensures r.Err? ==> r.error == PatientNotFound
      ensures r.Ok? ==> exists i :: 0 <= i < |patients| && patients[i] == r.data && r.data.cnic == cnic
                          && forall j :: 0 <= j < i ==> patients[j].cnic != cnic
    {
      match FindFirst(patients, (p: PatientRecord) => p.cnic == cnic)
      case Some(i) => Ok(patients[i])
      case None => Err(PatientNotFound)
    }

    /** `getPatientById`: the patient with identifier `id`, or 'Patient not found'. */
    function GetPatientById(id: string): (r: Response<PatientRecord>)
      reads this
      ensures r.Err? <==> forall i :: 0 <= i < |patients| ==> patients[i].id != id
      ensures r.Err? ==> r.error == PatientNotFound
      ensures r.Ok? ==> r.data.id == id && r.data in patients
    {
      match PatientIndex(id)
      case Some(i) => Ok(patients[i])
      case None => Err(PatientNotFound)
    }

    /**
     * `getPatientPrescriptions`: always succeeds, with exactly the
     * prescriptions made out to `patientId`.
     */
    function GetPatientPrescriptions(patientId: string): (r: Response<seq<Prescription>>)
      reads this
      ensures r.Ok?
      ensures forall q :: q in r.data <==> q in prescriptions && q.patientId == patientId
    {
      FilterMembers(prescriptions, (q: Prescription) => q.patientId == patientId);
      Ok(Filter(prescriptions, (q: Prescription) => q.patientId == patientId))
    }

    // ------------------------------------------------------------ patients

    /**
     * `registerPatient`: appends the patient numbered by the counter, with no
     * prescriptions and `pastPrescriptions` defaulting to ''. A CNIC that
     * is already registered is not rejected, and does not hide the earlier
     * patient from a CNIC search.
     */
    method RegisterPatient(data: PatientData) returns (r: Response<PatientRecord>)
      requires Valid()
      modifies this`patients, this`nextPatientId
      ensures Valid()
      ensures r.Ok?
      ensures r.data == PatientRecord(PatientId(old(nextPatientId)), data.cnic, data.name, data.age,
                          data.gender, data.medicalHistory, data.allergies, data.previousTreatments,
                          data.bloodType, [], Some(OrEmpty(data.pastPrescriptions)))
      ensures patients == old(patients) + [r.data]
      ensures GetPatientById(r.data.id) == Ok(r.data)
      ensures GetPatientByCnic(data.cnic).Ok?
      ensures forall cnic :: old(GetPatientByCnic(cnic)).Ok? ==> GetPatientByCnic(cnic) == old(GetPatientByCnic(cnic))
    {
      var p := PatientRecord(PatientId(nextPatientId), data.cnic, data.name, data.age, data.gender,
        data.medicalHistory, data.allergies, data.previousTreatments, data.bloodType,
        [], Some(OrEmpty(data.pastPrescriptions)));
      ghost var before := patients;
      patients := patients + [p];
      nextPatientId := nextPatientId + 1;
      r := Ok(p);
      NewPatientFound(before, p);
      OwnListsAfterRegister(before, prescriptions, p);
      assert patients[|before|] == p;
      forall cnic | old(GetPatientByCnic(cnic)).Ok?
        ensures GetPatientByCnic(cnic) == old(GetPatientByCnic(cnic))
      {
        FindFirstSnoc(before, p, (q: PatientRecord) => q.cnic == cnic);
      }
      FindFirstSnoc(before, p, (q: PatientRecord) => q.cnic == data.cnic);
    }

    // ------------------------------------------------------- consultations

    /**
     * `startConsultation`: appends an active consultation with no messages,
     * numbered by the counter; the patient is not checked. Its identifier
     * is new, and looking it up finds the new row.
     */
    method StartConsultation(patientId: string) returns (r: Response<ConsultationData>)
      requires Valid()
      modifies this`consultations, this`nextConsultationId
      ensures Valid()
      ensures r == Ok(ConsultationData(ConsultationId(old(nextConsultationId)), patientId, [], None, None, Active, None))
      ensures consultations == old(consultations) + [r.data]
      ensures forall i :: 0 <= i < |old(consultations)| ==> old(consultations)[i].id != r.data.id
      ensures ConsultationIndex(r.data.id) == Some(|old(consultations)|)
    {
      var c := ConsultationData(ConsultationId(nextConsultationId), patientId, [], None, None, Active, None);
      ghost var before := consultations;
      consultations := consultations + [c];
      nextConsultationId := nextConsultationId + 1;
      r := Ok(c);
      NewConsultationFound(before, c);
    }

    /**
     * `updateNotes`: on a known consultation only its `notes` change; on an
     * unknown one, 'Consultation not found' and nothing changes.
     */
    method UpdateNotes(consultationId: string, notes: string) returns (r: Response<ConsultationData>)
      requires Valid()
      modifies this`consultations
      ensures Valid()
      ensures old(ConsultationIndex(consultationId)).None? ==>
                r == Err(ConsultationNotFound) && consultations == old(consultations)
      ensures old(ConsultationIndex(consultationId)).Some? ==>
                var k := old(ConsultationIndex(consultationId)).value;
                && consultations == old(consultations)[k := old(consultations)[k].(notes := Some(notes))]
                && r == Ok(consultations[k])
    {
      match ConsultationIndex(consultationId)
      case None =>
        r := Err(ConsultationNotFound);
      case Some(k) =>
        ConsultationReplaced(consultations, k, consultations[k].(notes := Some(notes)));
        consultations := consultations[k := consultations[k].(notes := Some(notes))];
        r := Ok(consultations[k]);
    }

    /**
     * `savePrescription`: on a known consultation only its `prescription`
     * and `notes` change; on an unknown one, nothing changes.
     */
    method SavePrescription(consultationId: string, prescription: seq<Medicine>, notes: string)
      returns (r: Response<ConsultationData>)
      requires Valid()
      modifies this`consultations
      ensures Valid()
      ensures old(ConsultationIndex(consultationId)).None? ==>
                r == Err(ConsultationNotFound) && consultations == old(consultations)
      ensures old(ConsultationIndex(consultationId)).Some? ==>
                var k := old(ConsultationIndex(consultationId)).value;
                && consultations == old(consultations)[k := old(consultations)[k].(prescription := Some(prescription), notes := Some(notes))]
                && r == Ok(consultations[k])
    {
      match ConsultationIndex(consultationId)
      case None =>
        r := Err(ConsultationNotFound);
      case Some(k) =>
        ConsultationReplaced(consultations, k, consultations[k].(prescription := Some(prescription), notes := Some(notes)));
        consultations := consultations[k := consultations[k].(prescription := Some(prescription), notes := Some(notes))];
        r := Ok(consultations[k]);
    }

    /**
     * `completeConsultation`: on a known consultation the status becomes
     * completed and the completion time (a parameter here) is recorded;
     * on an unknown one, nothing changes.
     */
    method CompleteConsultation(consultationId: string, now: string) returns (r: Response<ConsultationData>)
      requires Valid()
      modifies this`consultations
      ensures Valid()
      ensures old(ConsultationIndex(consultationId)).None? ==>
                r == Err(ConsultationNotFound) && consultations == old(consultations)
      ensures old(ConsultationIndex(consultationId)).Some? ==>
                var k := old(ConsultationIndex(consultationId)).value;
                && consultations == old(consultations)[k := old(consultations)[k].(status := Completed, completedAt := Some(now))]
                && r == Ok(consultations[k])
    {
      match ConsultationIndex(consultationId)
      case None =>
        r := Err(ConsultationNotFound);
      case Some(k) =>
        ConsultationReplaced(consultations, k, consultations[k].(status := Completed, completedAt := Some(now)));
        consultations := consultations[k := consultations[k].(status := Completed, completedAt := Some(now))];
        r := Ok(consultations[k]);
    }

    /**
     * `addMessage`: on a known consultation the message is appended at the
     * end of its messages and returned; on an unknown one, nothing changes.
     */
    method AddMessage(consultationId: string, message: Message) returns (r: Response<Message>)
      requires Valid()
      modifies this`consultations
      ensures Valid()
      ensures old(ConsultationIndex(consultationId)).None? ==>
                r == Err(ConsultationNotFound) && consultations == old(consultations)
      ensures old(ConsultationIndex(consultationId)).Some? ==>
                var k := old(ConsultationIndex(consultationId)).value;
                && consultations == old(consultations)[k := old(consultations)[k].(messages := old(consultations)[k].messages + [message])]
                && r == Ok(message)
    {
      match ConsultationIndex(consultationId)
      case None =>
        r := Err(ConsultationNotFound);
      case Some(k) =>
        ConsultationReplaced(consultations, k, consultations[k].(messages := consultations[k].messages + [message]));
        consultations := consultations[k := consultations[k].(messages := consultations[k].messages + [message])];
        r := Ok(message);
    }

    // ------------------------------------------------------- prescriptions

    /**
     * `createPrescription`: appends the prescription numbered by the
     * counter to the global table and, when a patient with that identifier
     * exists, to the end of that patient's own list. It succeeds whether
     * or not the patient exists. Each patient's `getPatientPrescriptions`
     * answer grows at the end, so it stays in creation order.
     */
    method CreatePrescription(data: PrescriptionData) returns (r: Response<Prescription>)
      requires Valid()
      modifies this`prescriptions, this`nextPrescriptionId, this`patients
      ensures Valid()
      ensures r == Ok(Prescription(PrescriptionId(old(nextPrescriptionId)), data.patientId, data.date,
                        data.medicines, data.instructions, data.doctorNotes))
      ensures prescriptions == old(prescriptions) + [r.data]
      ensures old(PatientIndex(data.patientId)).None? ==> patients == old(patients)
      ensures old(PatientIndex(data.patientId)).Some? ==>
                var k := old(PatientIndex(data.patientId)).value;
                patients == old(patients)[k := old(patients)[k].(prescriptions := old(patients)[k].prescriptions + [r.data])]
      ensures forall pid :: GetPatientPrescriptions(pid).data ==
                old(GetPatientPrescriptions(pid)).data + (if pid == data.patientId then [r.data] else [])
    {
      var q := Prescription(PrescriptionId(nextPrescriptionId), data.patientId, data.date,
        data.medicines, data.instructions, data.doctorNotes);
      ghost var before := prescriptions;
      prescriptions := prescriptions + [q];
      nextPrescriptionId := nextPrescriptionId + 1;
      PrescriptionAppended(patients, before, q);
      match PatientIndex(data.patientId) {
        case None =>
        case Some(k) =>
          assert q in prescriptions;
          OwnListGrows(patients, prescriptions, k, q);
          patients := patients[k := patients[k].(prescriptions := patients[k].prescriptions + [q])];
      }
      r := Ok(q);
      forall pid
        ensures GetPatientPrescriptions(pid).data ==
          Filter(before, (x: Prescription) => x.patientId == pid) + (if pid == data.patientId then [q] else [])
      {
        FilterSnoc(before, q, (x: Prescription) => x.patientId == pid);
      }
    }
  }
}

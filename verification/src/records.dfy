/**
 * The documents the application stores, as the aggregation code reads them.
 * Firestore documents are schemaless and the application writes several
 * shapes (OCR extractions, voice prescriptions, hand-entered records), so
 * every field is optional: `None` stands for a field that is absent, `null`
 * or `undefined`.  An array-valued field is `Some` even when the array is
 * empty, because an empty array is truthy in JavaScript and stops an `||`
 * chain.
 */
module Records {
  import opened Wrappers
  import JsText
  import Instants

  /** One symptom entry: a bare string, or an object with optional fields. */
  datatype Symptom =
    | SymptomString(raw: string)
    | SymptomObject(text: Option<string>, name: Option<string>, severity: Option<string>, notes: Option<string>)

  /**
   * One medication entry.  Different writers use different keys: OCR uses
   * `medication`/`dosage`/`frequency`/`duration`, the voice model
   * `name`/`dose`/`timing`/`duration_days`, the editor `name`/`dosage`/
   * `frequency`/`duration`.
   */
  datatype Medication =
    | MedicationString(entry: string)
    | MedicationObject(name: Option<string>, medication: Option<string>,
                       dosage: Option<string>, dose: Option<string>,
                       frequency: Option<string>, timing: Option<string>,
                       duration: Option<string>, durationDays: Option<int>,
                       instructions: Option<string>)

  datatype Diagnosis = Diagnosis(text: Option<string>, icd10: Option<string>, confidence: Option<real>)

  datatype DoctorInfo = DoctorInfo(name: Option<string>, clinic: Option<string>, clinicAddress: Option<string>,
                                   address: Option<string>, phone: Option<string>, license: Option<string>)

  /** One entry of `extractedData.values`, in the order `Object.keys` lists them. */
  datatype LabField = LabField(key: string, value: string)

  /** `extractedData`: what OCR or the voice model extracted from a prescription. */
  datatype Extracted = Extracted(
    symptoms: Option<seq<Symptom>>,
    diagnoses: Option<seq<Diagnosis>>,
    medications: Option<seq<Medication>>,
    prescriptions: Option<seq<Medication>>,
    doctorInfo: Option<DoctorInfo>,
    values: Option<seq<LabField>>,
    notes: Option<string>,
    date: Option<string>)

  /** A document of the `prescriptions` collection; `kind` is its `type` field. */
  datatype Prescription = Prescription(
    id: string,
    kind: Option<string>,
    patientId: Option<string>,
    userId: Option<string>,
    doctorName: Option<string>,
    createdAt: Option<string>,
    prescriptionDate: Option<string>,
    uploadedSeconds: Option<int>,
    symptoms: Option<seq<Symptom>>,
    diagnoses: Option<seq<Diagnosis>>,
    medications: Option<seq<Medication>>,
    extracted: Option<Extracted>)

  /** A document of the `users` collection. */
  datatype User = User(id: string, role: Option<string>, clinic: Option<string>, hospital: Option<string>)

  /** A doctor profile as the doctor directory lists it. */
  datatype Doctor = Doctor(id: string, displayName: Option<string>, clinicName: Option<string>,
                           specialization: Option<string>)

  /** A medication object with only the four fields the prescription editor writes. */
  function EditorMedication(name: string, dosage: string, frequency: string, duration: string): Medication {
    MedicationObject(Some(name), None, Some(dosage), None, Some(frequency), None, Some(duration), None, None)
  }

  /** A prescription document with no fields but its id. */
  function BareRecord(id: string): Prescription {
    Prescription(id, None, None, None, None, None, None, None, None, None, None, None)
  }

  function NoExtraction(): Extracted {
    Extracted(None, None, None, None, None, None, None, None)
  }

  // ---------------------------------------------------------------- field access

  /** `a || b` for array fields: the first list that is present, empty or not. */
  function FirstList<T>(a: Option<seq<T>>, b: Option<seq<T>>): (r: Option<seq<T>>)
    ensures a.Some? ==> r == a
    ensures a.None? ==> r == b
  {
    if a.Some? then a else b
  }

  /** `list?.length`, with an absent list counting as empty. */
  function LengthOf<T>(o: Option<seq<T>>): nat {
    match o
    case None => 0
    case Some(s) => |s|
  }

  function EdSymptoms(p: Prescription): Option<seq<Symptom>> {
    if p.extracted.Some? then p.extracted.value.symptoms else None
  }

  function EdDiagnoses(p: Prescription): Option<seq<Diagnosis>> {
    if p.extracted.Some? then p.extracted.value.diagnoses else None
  }

  function EdMedications(p: Prescription): Option<seq<Medication>> {
    if p.extracted.Some? then p.extracted.value.medications else None
  }

  function EdPrescriptions(p: Prescription): Option<seq<Medication>> {
    if p.extracted.Some? then p.extracted.value.prescriptions else None
  }

  function EdValues(p: Prescription): Option<seq<LabField>> {
    if p.extracted.Some? then p.extracted.value.values else None
  }

  function EdNotes(p: Prescription): Option<string> {
    if p.extracted.Some? then p.extracted.value.notes else None
  }

  function EdDate(p: Prescription): Option<string> {
    if p.extracted.Some? then p.extracted.value.date else None
  }

  /** `extractedData?.doctorInfo?.<field>`. */
  function EdDoctor(p: Prescription, field: DoctorInfo -> Option<string>): Option<string> {
    if p.extracted.Some? && p.extracted.value.doctorInfo.Some? then field(p.extracted.value.doctorInfo.value) else None
  }

  function DoctorInfoName(d: DoctorInfo): Option<string> {
    d.name
  }

  function DoctorInfoClinic(d: DoctorInfo): Option<string> {
    d.clinic
  }

  /** `symptom.text` read from any symptom entry; a string has no `text` property. */
  function SymptomText(s: Symptom): Option<string> {
    if s.SymptomObject? then s.text else None
  }

  function SymptomName(s: Symptom): Option<string> {
    if s.SymptomObject? then s.name else None
  }

  function MedicationName(m: Medication): Option<string> {
    if m.MedicationObject? then m.name else None
  }

  function MedicationField(m: Medication): Option<string> {
    if m.MedicationObject? then m.medication else None
  }

  /** `uploadedAt?.seconds` is truthy: present and not zero. */
  predicate HasUploadSeconds(p: Prescription) {
    p.uploadedSeconds.Some? && p.uploadedSeconds.value != 0
  }

  /**
   * `new Date(p.uploadedAt?.seconds * 1000 || p.createdAt)`: the upload time
   * when its seconds are truthy, otherwise the creation date string, and an
   * invalid date when neither is there.
   */
  function UploadInstant(p: Prescription, parse: Instants.Parser): (r: Instants.Instant)
    ensures HasUploadSeconds(p) ==> r == Instants.FromMillis(p.uploadedSeconds.value * 1000)
    ensures !HasUploadSeconds(p) && p.createdAt.Some? ==> r == parse(p.createdAt.value)
    ensures !HasUploadSeconds(p) && p.createdAt.None? ==> r == Instants.Invalid
  {
    if HasUploadSeconds(p) then Instants.FromMillis(p.uploadedSeconds.value * 1000)
    else Instants.FromText(p.createdAt, parse)
  }
}

/**
 * The health-summary route, up to the call of the language model: the
 * patient's records are fetched twice (by `patientId` and by `userId`),
 * merged without duplicate ids, and reduced to the fields the model is
 * shown.  The model's answer itself is not modelled; the route's outcome is
 * either an error, the fixed text for a patient without records, or the
 * data the model would be asked about.
 */
module HealthSummary {
  import opened Wrappers
  import opened Seqs
  import opened Records
  import JsText
  import Instants

  function RecordId(p: Prescription): string {
    p.id
  }

  /**
   * `[...byPatient, ...byUser]` with every record whose id was seen earlier
   * removed: `filter((p, i, self) => i === self.findIndex(q => q.id === p.id))`.
   */
  function Merge(byPatient: seq<Prescription>, byUser: seq<Prescription>): (r: seq<Prescription>)
    ensures IsSubsequence(r, byPatient + byUser)
    ensures DistinctKeys(r, RecordId)
    ensures forall i :: 0 <= i < |byPatient + byUser| ==> HasKey(r, RecordId, (byPatient + byUser)[i].id)
    ensures forall i :: 0 <= i < |r| ==> FirstWith(byPatient + byUser, RecordId, r[i].id) == Some(r[i])
  {
    DedupBy(byPatient + byUser, RecordId)
  }

  /** The merged records keep the order in which their ids first appear, patient records first. */
  lemma MergeOrder(byPatient: seq<Prescription>, byUser: seq<Prescription>)
    ensures InFirstOrder(Merge(byPatient, byUser), byPatient + byUser, RecordId)
  {
    DedupByOrder(byPatient + byUser, RecordId);
  }

  /** Merging again changes nothing. */
  lemma MergeIdempotent(byPatient: seq<Prescription>, byUser: seq<Prescription>)
    ensures DedupBy(Merge(byPatient, byUser), RecordId) == Merge(byPatient, byUser)
  {
    DedupIdempotent(byPatient + byUser, RecordId);
  }

  /** When the `patientId` results have distinct ids, they all come first, unchanged and in order. */
  lemma MergeKeepsPatientResults(byPatient: seq<Prescription>, byUser: seq<Prescription>)
    requires DistinctKeys(byPatient, RecordId)
    ensures |byPatient| <= |Merge(byPatient, byUser)|
    ensures Merge(byPatient, byUser)[..|byPatient|] == byPatient
  {
    DedupDistinct(byPatient, RecordId);
    DedupPrefix(byPatient, byUser, RecordId);
  }

  /** A record found by both queries is kept once. */
  lemma BothQueriesOnce(p: Prescription)
    ensures Merge([p], [p]) == [p]
  {
    var s := [p] + [p];
    assert s[..1] == [p];
    DedupStep([p], RecordId);
    assert [p][..0] == [];
    assert DedupBy([p], RecordId) == [p];
    DedupStep(s, RecordId);
    assert HasKey([p], RecordId, p.id) by {
      assert RecordId([p][0]) == p.id;
    }
    assert DistinctKeys(Merge([p], [p]), RecordId);
  }

  // ---------------------------------------------------------------- the fields shown to the model

  /** The date shown: the extracted date text, or the upload instant to be formatted in the locale. */
  datatype DateShown = Written(text: string) | Computed(at: Instants.Instant)

  datatype MedicalEntry = MedicalEntry(date: DateShown, doctor: string, symptoms: seq<Symptom>,
                                       diagnoses: seq<Diagnosis>, medications: seq<Medication>, notes: string)

  /** The value of an array field that may be absent, `[]` when it is. */
  function ListOr<T>(o: Option<seq<T>>): seq<T> {
    match o
    case None => []
    case Some(s) => s
  }

  /** One element of `medicalData`. */
  function Entry(p: Prescription, parse: Instants.Parser): (r: MedicalEntry)
    ensures JsText.Truthy(EdDate(p)) ==> r.date == Written(EdDate(p).value)
    ensures !JsText.Truthy(EdDate(p)) ==> r.date == Computed(UploadInstant(p, parse))
    ensures JsText.Truthy(p.doctorName) ==> r.doctor == p.doctorName.value
    ensures !JsText.Truthy(p.doctorName) && JsText.Truthy(EdDoctor(p, DoctorInfoName))
            ==> r.doctor == EdDoctor(p, DoctorInfoName).value
    ensures !JsText.Truthy(p.doctorName) && !JsText.Truthy(EdDoctor(p, DoctorInfoName)) ==> r.doctor == "Unknown Doctor"
    ensures p.symptoms.Some? ==> r.symptoms == p.symptoms.value
    ensures p.symptoms.None? ==> r.symptoms == ListOr(EdSymptoms(p))
    ensures p.diagnoses.Some? ==> r.diagnoses == p.diagnoses.value
    ensures p.diagnoses.None? ==> r.diagnoses == ListOr(EdDiagnoses(p))
    ensures p.medications.Some? ==> r.medications == p.medications.value
    ensures p.medications.None? ==> r.medications == ListOr(EdPrescriptions(p))
    ensures r.notes == JsText.Or(EdNotes(p), "")
  {
    MedicalEntry(
      if JsText.Truthy(EdDate(p)) then Written(EdDate(p).value) else Computed(UploadInstant(p, parse)),
      JsText.Or(JsText.OrElse(p.doctorName, EdDoctor(p, DoctorInfoName)), "Unknown Doctor"),
      ListOr(FirstList(p.symptoms, EdSymptoms(p))),
      ListOr(FirstList(p.diagnoses, EdDiagnoses(p))),
      ListOr(FirstList(p.medications, EdPrescriptions(p))),
      JsText.Or(EdNotes(p), ""))
  }

  /** The voice model's `extractedData.medications` never reach the summary; only OCR's `prescriptions` do. */
  lemma VoiceMedicationsUnused(id: string, m: Medication)
    ensures var p := BareRecord(id).(extracted := Some(NoExtraction().(medications := Some([m]))));
            forall parse: Instants.Parser :: Entry(p, parse).medications == []
  {
  }

  /** An empty top-level list still wins over the extracted one. */
  lemma EmptyTopLevelWins(id: string, s: Symptom)
    ensures var p := BareRecord(id).(symptoms := Some([]), extracted := Some(NoExtraction().(symptoms := Some([s]))));
            forall parse: Instants.Parser :: Entry(p, parse).symptoms == []
  {
  }

  // ---------------------------------------------------------------- the route

  const NoRecordsText: string :=
    "No medical records available yet. Upload your first prescription to generate a comprehensive health summary."

  datatype Outcome =
    | BadRequest(error: string)
    | Fixed(summary: string)
    | AskModel(data: seq<MedicalEntry>)

  function Medical(records: seq<Prescription>, parse: Instants.Parser): (r: seq<MedicalEntry>)
    ensures |r| == |records|
    ensures forall i :: 0 <= i < |records| ==> r[i] == Entry(records[i], parse)
  {
    Map(records, (p: Prescription) => Entry(p, parse))
  }

  /** The route: the request's `userId`, the results of the two queries and the date parser. */
  function Summarize(userId: Option<string>, byPatient: seq<Prescription>, byUser: seq<Prescription>,
                     parse: Instants.Parser): (r: Outcome)
    ensures !JsText.Truthy(userId) ==> r == BadRequest("User ID is required")
    ensures JsText.Truthy(userId) ==> (r.Fixed? <==> |byPatient| + |byUser| == 0)
    ensures JsText.Truthy(userId) && |byPatient| + |byUser| > 0 ==> r.AskModel?
    ensures r.Fixed? ==> r.summary == NoRecordsText
    ensures r.AskModel? ==> r.data == Medical(Merge(byPatient, byUser), parse) && |r.data| > 0
  {
    if !JsText.Truthy(userId) then BadRequest("User ID is required")
    else
      var records := Merge(byPatient, byUser);
      assert |records| == 0 ==> |byPatient + byUser| == 0 by {
        if |byPatient + byUser| > 0 {
          assert HasKey(records, RecordId, (byPatient + byUser)[0].id);
        }
      }
      if |records| == 0 then Fixed(NoRecordsText) else AskModel(Medical(records, parse))
  }

  /** An id is among the records shown to the model exactly when either query found a record with it. */
  lemma MergeIds(byPatient: seq<Prescription>, byUser: seq<Prescription>, id: string)
    ensures HasKey(Merge(byPatient, byUser), RecordId, id) <==> HasKey(byPatient + byUser, RecordId, id)
  {
    DedupHasKey(byPatient + byUser, RecordId, id);
  }
}

/**
 * The patient dashboard's own logic: how many medications a record lists,
 * the figures of the health overview, and the list that remains after a
 * record is deleted.
 */
module PatientDashboard {
  import opened Wrappers
  import opened Seqs
  import opened Records
  import Instants

  /**
   * `getMedicationCount`: the length of the first non-empty list among
   * `extractedData.prescriptions`, `extractedData.medications` and the
   * top-level `medications`.
   */
  function MedicationCount(p: Prescription): (r: nat)
    ensures r == 0 <==> LengthOf(EdPrescriptions(p)) == 0 && LengthOf(EdMedications(p)) == 0
                        && LengthOf(p.medications) == 0
    ensures LengthOf(EdPrescriptions(p)) > 0 ==> r == LengthOf(EdPrescriptions(p))
    ensures LengthOf(EdPrescriptions(p)) == 0 && LengthOf(EdMedications(p)) > 0 ==> r == LengthOf(EdMedications(p))
    ensures LengthOf(EdPrescriptions(p)) == 0 && LengthOf(EdMedications(p)) == 0 ==> r == LengthOf(p.medications)
  {
    if LengthOf(EdPrescriptions(p)) > 0 then LengthOf(EdPrescriptions(p))
    else if LengthOf(EdMedications(p)) > 0 then LengthOf(EdMedications(p))
    else LengthOf(p.medications)
  }

  /** Unlike the `||` chains elsewhere, an empty list does not stop the search. */
  lemma EmptyListSkipped(id: string, m: Medication)
    ensures MedicationCount(BareRecord(id).(extracted := Some(NoExtraction().(prescriptions := Some([]))),
                                            medications := Some([m, m]))) == 2
  {
  }

  predicate HasMedications(p: Prescription) {
    MedicationCount(p) > 0
  }

  datatype HealthStats = HealthStats(totalRecords: nat, recentUploads: nat, upcomingAppointments: nat, prescriptions: nat)

  /** The upload instant is later than `monthAgo`; an invalid date never is. */
  predicate Recent(p: Prescription, monthAgo: Instants.Instant, parse: Instants.Parser) {
    Instants.Less(monthAgo, UploadInstant(p, parse))
  }

  /**
   * `healthStats`, given the instant one calendar month before now (the
   * component computes it with `setMonth`) and the date parser.
   */
  function Stats(records: seq<Prescription>, monthAgo: Instants.Instant, parse: Instants.Parser): (r: HealthStats)
    ensures r.totalRecords == |records|
    ensures r.recentUploads <= r.totalRecords && r.prescriptions <= r.totalRecords
    ensures r.upcomingAppointments == 2
    ensures monthAgo.Invalid? ==> r.recentUploads == 0
    ensures r.recentUploads == Count(records, (p: Prescription) => Recent(p, monthAgo, parse))
    ensures r.prescriptions == Count(records, HasMedications)
  {
    var recent := Filter(records, (p: Prescription) => Recent(p, monthAgo, parse));
    HealthStats(|records|, |recent|, 2, Count(records, HasMedications))
  }

  /** When every record was uploaded within the month, every record counts as recent. */
  lemma AllRecent(records: seq<Prescription>, monthAgo: Instants.Instant, parse: Instants.Parser)
    requires forall i :: 0 <= i < |records| ==> Recent(records[i], monthAgo, parse)
    ensures Stats(records, monthAgo, parse).recentUploads == |records|
  {
    FilterKeepsAll(records, (p: Prescription) => Recent(p, monthAgo, parse));
  }

  /** The records counted as prescriptions and those without medications make up all records. */
  lemma PrescriptionsSplit(records: seq<Prescription>, monthAgo: Instants.Instant, parse: Instants.Parser)
    ensures Stats(records, monthAgo, parse).prescriptions
            + Count(records, (p: Prescription) => MedicationCount(p) == 0) == |records|
  {
    CountComplement(records, HasMedications, (p: Prescription) => MedicationCount(p) == 0);
  }

  /** The overview of two lists of records adds up. */
  lemma StatsConcat(a: seq<Prescription>, b: seq<Prescription>, monthAgo: Instants.Instant, parse: Instants.Parser)
    ensures var s := Stats(a + b, monthAgo, parse);
            var sa := Stats(a, monthAgo, parse);
            var sb := Stats(b, monthAgo, parse);
            s.recentUploads == sa.recentUploads + sb.recentUploads && s.prescriptions == sa.prescriptions + sb.prescriptions
  {
    FilterConcat(a, b, (p: Prescription) => Recent(p, monthAgo, parse));
    CountConcat(a, b, HasMedications);
  }

  /**
   * The list after a delete request: when the server answered `ok`, every
   * record with that id is gone and the rest keep their order; otherwise
   * nothing changes.
   */
  function AfterDelete(records: seq<Prescription>, id: string, ok: bool): (r: seq<Prescription>)
    ensures !ok ==> r == records
    ensures ok ==> forall i :: 0 <= i < |r| ==> r[i].id != id
    ensures ok ==> forall i :: 0 <= i < |records| && records[i].id != id ==> records[i] in r
    ensures IsSubsequence(r, records)
    ensures ok ==> |r| == |records| - Count(records, (p: Prescription) => p.id == id)
  {
    if ok then
      var r := Filter(records, (p: Prescription) => p.id != id);
      CountComplement(records, (p: Prescription) => p.id == id, (p: Prescription) => p.id != id);
      r
    else
      SubsequenceRefl(records);
      records
  }

  /** Deleting an id that is not listed changes nothing, and deleting twice is deleting once. */
  lemma DeleteStable(records: seq<Prescription>, id: string)
    ensures (forall i :: 0 <= i < |records| ==> records[i].id != id) ==> AfterDelete(records, id, true) == records
    ensures AfterDelete(AfterDelete(records, id, true), id, true) == AfterDelete(records, id, true)
  {
    if forall i :: 0 <= i < |records| ==> records[i].id != id {
      FilterKeepsAll(records, (p: Prescription) => p.id != id);
    }
    var once := AfterDelete(records, id, true);
    FilterKeepsAll(once, (p: Prescription) => p.id != id);
  }
}

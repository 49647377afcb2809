/**
 * The doctor's view of one patient: the overview cards (records, last visit,
 * medications prescribed in total) and, per record, its label and the short
 * medication list.
 */
module PatientDetailView {
  import opened Wrappers
  import opened Records
  import JsText
  import Instants

  /** `extractedData?.medications?.length || extractedData?.prescriptions?.length || 0`: a length of 0 falls through. */
  function RecordMedications(p: Prescription): (r: nat)
    ensures LengthOf(EdMedications(p)) > 0 ==> r == LengthOf(EdMedications(p))
    ensures LengthOf(EdMedications(p)) == 0 ==> r == LengthOf(EdPrescriptions(p))
    ensures r == 0 <==> LengthOf(EdMedications(p)) == 0 && LengthOf(EdPrescriptions(p)) == 0
  {
    if LengthOf(EdMedications(p)) > 0 then LengthOf(EdMedications(p)) else LengthOf(EdPrescriptions(p))
  }

  /** The "Active Medications" card: `reduce` adding each record's count, from 0. */
  function TotalMedications(records: seq<Prescription>): nat
    decreases |records|
  {
    if |records| == 0 then 0
    else TotalMedications(records[..|records| - 1]) + RecordMedications(records[|records| - 1])
  }

  lemma {:induction false} TotalConcat(a: seq<Prescription>, b: seq<Prescription>)
    ensures TotalMedications(a + b) == TotalMedications(a) + TotalMedications(b)
    decreases |b|
  {
    if |b| == 0 {
      assert a + b == a;
    } else {
      var b' := b[..|b| - 1];
      assert (a + b)[..|a + b| - 1] == a + b';
      TotalConcat(a, b');
    }
  }

  /** The total is 0 exactly when no record lists a medication, in particular for no records. */
  lemma {:induction false} TotalZero(records: seq<Prescription>)
    ensures TotalMedications(records) == 0 <==> forall i :: 0 <= i < |records| ==> RecordMedications(records[i]) == 0
    decreases |records|
  {
    if |records| > 0 {
      var pre := records[..|records| - 1];
      TotalZero(pre);
      if TotalMedications(records) == 0 {
        forall i | 0 <= i < |records|
          ensures RecordMedications(records[i]) == 0
        {
          if i < |pre| {
            assert records[i] == pre[i];
          }
        }
      } else {
        assert TotalMedications(pre) > 0 || RecordMedications(records[|records| - 1]) > 0;
        if TotalMedications(pre) > 0 {
          var i :| 0 <= i < |pre| && RecordMedications(pre[i]) != 0;
          assert records[i] == pre[i];
        }
      }
    }
  }

  /** The "Last Visit" card. */
  datatype LastVisit = Never | On(at: Instants.Instant)

  /** The first record's creation date, or "Never" without records. */
  function Visited(records: seq<Prescription>, parse: Instants.Parser): (r: LastVisit)
    ensures r == Never <==> |records| == 0
    ensures r.On? ==> r.at == Instants.FromText(records[0].createdAt, parse)
  {
    if |records| > 0 then On(Instants.FromText(records[0].createdAt, parse)) else Never
  }

  /** The label of a record. */
  function RecordLabel(p: Prescription): (r: string)
    ensures r == "Voice Prescription" <==> p.kind == Some("voice_prescription")
    ensures r != "Voice Prescription" ==> r == "OCR Prescription"
  {
    if p.kind == Some("voice_prescription") then "Voice Prescription" else "OCR Prescription"
  }

  // ---------------------------------------------------------------- the medication list of a record

  /** The Medications block is drawn when the record has an extraction with a non-empty list. */
  predicate ShowsMedications(p: Prescription) {
    p.extracted.Some? && (LengthOf(EdMedications(p)) > 0 || LengthOf(EdPrescriptions(p)) > 0)
  }

  /** The first three items and, for a longer list, the number in "+k more...". */
  datatype MedicationList = MedicationList(items: seq<Medication>, more: Option<nat>)

  function Shorten(list: seq<Medication>): (r: MedicationList)
    ensures |r.items| == if |list| < 3 then |list| else 3
    ensures r.items == list[..|r.items|]
    ensures r.more.Some? <==> |list| > 3
    ensures |r.items| + r.more.GetOr(0) == |list|
  {
    if |list| > 3 then MedicationList(list[..3], Some(|list| - 3)) else MedicationList(list, None)
  }

  /** `extractedData.medications || extractedData.prescriptions || []`: an empty list is truthy and wins. */
  function ListedAsWritten(p: Prescription): (r: seq<Medication>)
    ensures EdMedications(p).Some? ==> r == EdMedications(p).value
  {
    FirstList(EdMedications(p), EdPrescriptions(p)).GetOr([])
  }

  /** The list the block draws, chosen by length like the total: a non-empty `medications`, else `prescriptions`. */
  function Listed(p: Prescription): (r: seq<Medication>)
    ensures |r| == RecordMedications(p)
  {
    if LengthOf(EdMedications(p)) > 0 then EdMedications(p).value else EdPrescriptions(p).GetOr([])
  }

  /** The Medications block as written: drawn over `medications || prescriptions`, which may be empty. */
  function BlockAsWritten(p: Prescription): (r: Option<MedicationList>)
    ensures r.Some? <==> ShowsMedications(p)
    ensures r.Some? ==> |r.value.items| + r.value.more.GetOr(0) == |ListedAsWritten(p)|
    ensures r.Some? && EdMedications(p).Some? ==> |r.value.items| + r.value.more.GetOr(0) == |EdMedications(p).value|
  {
    if ShowsMedications(p) then Some(Shorten(ListedAsWritten(p))) else None
  }

  /** The Medications block corrected: drawn over the list the total counts. */
  function Block(p: Prescription): (r: Option<MedicationList>)
    ensures r.Some? <==> ShowsMedications(p)
  {
    if ShowsMedications(p) then Some(Shorten(Listed(p))) else None
  }

  /**
   * A drawn block lists at least one medication, and what it lists plus the
   * "+k more" count is the number the total counts for that record.
   */
  lemma BlockMatchesTotal(p: Prescription)
    ensures Block(p).Some? ==> |Block(p).value.items| > 0
                               && |Block(p).value.items| + Block(p).value.more.GetOr(0) == RecordMedications(p)
    ensures p.extracted.Some? && Block(p).None? ==> RecordMedications(p) == 0
  {
  }

  /**
   * As written, an empty `medications` list next to a non-empty
   * `prescriptions` list draws the Medications heading over no items, while
   * the total counts the prescriptions.
   */
  lemma EmptyHeadingAsWritten(id: string, m: Medication)
    ensures var p := BareRecord(id).(extracted := Some(NoExtraction().(medications := Some([]), prescriptions := Some([m]))));
            ShowsMedications(p) && ListedAsWritten(p) == [] && RecordMedications(p) == 1
            && BlockAsWritten(p) == Some(MedicationList([], None))
            && Block(p) == Some(MedicationList([m], None))
  {
  }

  /** One item: `{med.name || med.medication} {(med.dose || med.dosage) && `- ${...}`}`. */
  function Item(m: Medication): string {
    if m.MedicationObject? then
      JsText.Or(JsText.OrElse(m.name, m.medication), "") + " "
      + (if JsText.Truthy(JsText.OrElse(m.dose, m.dosage)) then "- " + JsText.OrElse(m.dose, m.dosage).value else "")
    else " "
  }

  /** A voice entry (`name`, `dose`) and an OCR entry (`medication`, `dosage`) read the same. */
  lemma ItemShapesAgree(name: string, dose: string)
    requires name != "" && dose != ""
    ensures Item(MedicationObject(Some(name), None, None, Some(dose), None, None, None, None, None))
            == Item(MedicationObject(None, Some(name), Some(dose), None, None, None, None, None, None))
            == name + " - " + dose
  {
  }
}

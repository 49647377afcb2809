/**
 * The medication statistics route: every medication name a record carries,
 * from any of its three lists, counted under its lower-cased form and
 * ranked, the fifty most frequent first.
 */
module MedicationStats {
  import opened Wrappers
  import opened Seqs
  import opened Ranking
  import opened Records
  import JsText

  /** The trimmed text of a truthy field, or nothing. */
  function TrimmedIfTruthy(o: Option<string>): (r: Option<string>)
    ensures r.Some? <==> JsText.Truthy(o)
    ensures r.Some? ==> r.value == JsText.Trim(o.value)
  {
    if JsText.Truthy(o) then Some(JsText.Trim(o.value)) else None
  }

  /** An entry of `extractedData.prescriptions`: `medication`, else `name`; a bare string has neither. */
  function FromPrescriptions(m: Medication): (r: Option<string>)
    ensures JsText.Truthy(MedicationField(m)) ==> r == Some(JsText.Trim(MedicationField(m).value))
    ensures !JsText.Truthy(MedicationField(m)) ==> r == TrimmedIfTruthy(MedicationName(m))
    ensures m.MedicationString? ==> r.None?
  {
    if JsText.Truthy(MedicationField(m)) then TrimmedIfTruthy(MedicationField(m)) else TrimmedIfTruthy(MedicationName(m))
  }

  /** An entry of `extractedData.medications`: `name`, else `medication`; a bare string has neither. */
  function FromMedications(m: Medication): (r: Option<string>)
    ensures JsText.Truthy(MedicationName(m)) ==> r == Some(JsText.Trim(MedicationName(m).value))
    ensures !JsText.Truthy(MedicationName(m)) ==> r == TrimmedIfTruthy(MedicationField(m))
    ensures m.MedicationString? ==> r.None?
  {
    if JsText.Truthy(MedicationName(m)) then TrimmedIfTruthy(MedicationName(m)) else TrimmedIfTruthy(MedicationField(m))
  }

  /** An entry of the top-level `medications`: a string as it is, trimmed; an object by `name` only. */
  function FromTopLevel(m: Medication): (r: Option<string>)
    ensures m.MedicationString? ==> r == Some(JsText.Trim(m.entry))
    ensures m.MedicationObject? ==> r == TrimmedIfTruthy(m.name)
  {
    match m
    case MedicationString(e) => Some(JsText.Trim(e))
    case MedicationObject(_, _, _, _, _, _, _, _, _) => TrimmedIfTruthy(m.name)
  }

  /** The names `pick` finds in a list, in order; an absent list gives none. */
  function Picks(list: Option<seq<Medication>>, pick: Medication -> Option<string>): (r: seq<string>)
    ensures |r| <= LengthOf(list)
  {
    match list
    case None => []
    case Some(ms) => PicksOf(ms, pick)
  }

  function PicksOf(ms: seq<Medication>, pick: Medication -> Option<string>): (r: seq<string>)
    ensures |r| <= |ms|
    decreases |ms|
  {
    if |ms| == 0 then []
    else
      var p := pick(ms[|ms| - 1]);
      PicksOf(ms[..|ms| - 1], pick) + (if p.Some? then [p.value] else [])
  }

  predicate NonEmpty(s: string) {
    s != ""
  }

  /**
   * `extractMedNamesFromDoc`: the names from `extractedData.prescriptions`,
   * then `extractedData.medications`, then the top-level `medications`, all
   * of them, with empty names dropped.
   */
  function DocNames(p: Prescription): (r: seq<string>)
    ensures forall i :: 0 <= i < |r| ==> r[i] != ""
    ensures |r| <= LengthOf(EdPrescriptions(p)) + LengthOf(EdMedications(p)) + LengthOf(p.medications)
  {
    Filter(Picks(EdPrescriptions(p), FromPrescriptions) + Picks(EdMedications(p), FromMedications)
             + Picks(p.medications, FromTopLevel), NonEmpty)
  }

  /** The sources accumulate: the names of a record are those of each list, in list order. */
  lemma DocNamesAccumulate(p: Prescription)
    ensures DocNames(p) == Filter(Picks(EdPrescriptions(p), FromPrescriptions), NonEmpty)
                         + Filter(Picks(EdMedications(p), FromMedications), NonEmpty)
                         + Filter(Picks(p.medications, FromTopLevel), NonEmpty)
  {
    var a := Picks(EdPrescriptions(p), FromPrescriptions);
    var b := Picks(EdMedications(p), FromMedications);
    var c := Picks(p.medications, FromTopLevel);
    FilterConcat(a + b, c, NonEmpty);
    FilterConcat(a, b, NonEmpty);
  }

  lemma {:induction false} PicksOfConcat(a: seq<Medication>, b: seq<Medication>, pick: Medication -> Option<string>)
    ensures PicksOf(a + b, pick) == PicksOf(a, pick) + PicksOf(b, pick)
    decreases |b|
  {
    if |b| == 0 {
      assert a + b == a;
    } else {
      var b' := b[..|b| - 1];
      assert (a + b)[..|a + b| - 1] == a + b';
      PicksOfConcat(a, b', pick);
    }
  }

  /** Exactly the entries `pick` finds a name in contribute one name each. */
  lemma {:induction false} PicksOfCount(ms: seq<Medication>, pick: Medication -> Option<string>)
    ensures |PicksOf(ms, pick)| == Count(ms, (m: Medication) => pick(m).Some?)
    decreases |ms|
  {
    if |ms| > 0 {
      var pre := ms[..|ms| - 1];
      var m := ms[|ms| - 1];
      PicksOfCount(pre, pick);
      assert ms == pre + [m];
      CountConcat(pre, [m], (m: Medication) => pick(m).Some?);
      assert [m][..0] == [];
    }
  }

  /** A record with one OCR entry and one voice entry contributes both names, OCR first. */
  lemma BothListsCount(id: string, a: string, b: string)
    requires JsText.Trim(a) != "" && JsText.Trim(b) != ""
    ensures var ocr := MedicationObject(None, Some(a), None, None, None, None, None, None, None);
            var voice := MedicationObject(Some(b), None, None, None, None, None, None, None, None);
            var p := BareRecord(id).(extracted := Some(NoExtraction().(prescriptions := Some([ocr]),
                                                                         medications := Some([voice]))));
            DocNames(p) == [JsText.Trim(a), JsText.Trim(b)]
  {
    var ocr := MedicationObject(None, Some(a), None, None, None, None, None, None, None);
    var voice := MedicationObject(Some(b), None, None, None, None, None, None, None, None);
    var p := BareRecord(id).(extracted := Some(NoExtraction().(prescriptions := Some([ocr]),
                                                                 medications := Some([voice]))));
    assert FromPrescriptions(ocr) == Some(JsText.Trim(a));
    assert FromMedications(voice) == Some(JsText.Trim(b));
    assert EdPrescriptions(p) == Some([ocr]) && EdMedications(p) == Some([voice]) && p.medications.None?;
    OneOfEach(p, ocr, voice);
  }

  /** One name from each extracted list and no top-level list: both names, in that order. */
  lemma OneOfEach(p: Prescription, ocr: Medication, voice: Medication)
    requires EdPrescriptions(p) == Some([ocr]) && EdMedications(p) == Some([voice]) && p.medications.None?
    requires FromPrescriptions(ocr).Some? && FromPrescriptions(ocr).value != ""
    requires FromMedications(voice).Some? && FromMedications(voice).value != ""
    ensures DocNames(p) == [FromPrescriptions(ocr).value, FromMedications(voice).value]
  {
    var x, y := FromPrescriptions(ocr).value, FromMedications(voice).value;
    SinglePick(ocr, FromPrescriptions);
    SinglePick(voice, FromMedications);
    assert Picks(EdPrescriptions(p), FromPrescriptions) == [x];
    assert Picks(EdMedications(p), FromMedications) == [y];
    assert Picks(p.medications, FromTopLevel) == [];
    SingleKept(x);
    SingleKept(y);
    DocNamesAccumulate(p);
  }

  lemma SinglePick(m: Medication, pick: Medication -> Option<string>)
    ensures PicksOf([m], pick) == if pick(m).Some? then [pick(m).value] else []
  {
    assert [m][..0] == [];
  }

  lemma SingleKept(x: string)
    requires x != ""
    ensures Filter([x], NonEmpty) == [x]
  {
    assert [x][..0] == [];
  }

  /** A name of only spaces is truthy, so it is taken, and then dropped once trimmed. */
  lemma BlankNameDropped(id: string)
    ensures DocNames(BareRecord(id).(medications := Some([MedicationString("  ")]))) == []
  {
    var p := BareRecord(id).(medications := Some([MedicationString("  ")]));
    assert JsText.Trim("  ") == "" by {
      var t := JsText.TrimStart("  ");
      assert JsText.AllSpace("  "[..|"  "| - |t|]);
    }
    assert [MedicationString("  ")][..0] == [];
    assert Picks(p.medications, FromTopLevel) == [""];
    assert [""][..0] == [];
  }

  // ---------------------------------------------------------------- counting and ranking

  /** `m.toLowerCase()`: the counting key, not trimmed again. */
  function NameKeys(p: Prescription): seq<string> {
    Map(DocNames(p), JsText.Lower)
  }

  /** Every key counted, records in query order. */
  function AllKeys(ps: seq<Prescription>): seq<string> {
    FlatMap(ps, NameKeys)
  }

  /** `counts`: a plain object, so its entries are listed in property order. */
  function Counts(ps: seq<Prescription>): (r: seq<Entry<string>>)
    ensures Total(r) == |AllKeys(ps)|
    ensures multiset(r) == multiset(Tally(AllKeys(ps)))
  {
    var t := Tally(AllKeys(ps));
    TallyTotal(AllKeys(ps));
    ObjectOrderTotal(t);
    ObjectOrder(t)
  }

  /** Each key is counted once per name that lower-cases to it. */
  lemma {:induction false} CountsExact(ps: seq<Prescription>, key: string)
    ensures CountOf(Tally(AllKeys(ps)), key) == multiset(AllKeys(ps))[key]
  {
    TallyCounts(AllKeys(ps), key);
  }

  /** The counts of a combined record list add the counts of its parts. */
  lemma AllKeysConcat(a: seq<Prescription>, b: seq<Prescription>)
    ensures AllKeys(a + b) == AllKeys(a) + AllKeys(b)
  {
    FlatMapConcat(a, b, NameKeys);
  }

  /** `.sort((a, b) => b[1] - a[1]).slice(0, 50)`: the fifty highest counts, highest first. */
  function Rank(counts: seq<Entry<string>>): (r: seq<Entry<string>>)
    ensures |r| <= 50
    ensures SortedDesc(r, ByCount)
    ensures multiset(r) <= multiset(counts)
    ensures Total(r) <= Total(counts)
  {
    TopNSum(counts, ByCount, 50, EntryCount);
    TopN(counts, ByCount, 50)
  }

  /** An entry left out of the ranking is no more frequent than any entry kept, and the ranking is full. */
  lemma RankOmitsOnlyLess(counts: seq<Entry<string>>, e: Entry<string>)
    requires e in counts && e !in Rank(counts)
    ensures |Rank(counts)| == 50
    ensures forall i :: 0 <= i < 50 ==> Rank(counts)[i].count >= e.count
  {
    TopNExcluded(counts, ByCount, 50, e);
  }

  /** The response: the ranked counts, reported under the lower-case key. */
  function Report(ps: seq<Prescription>): (r: seq<Entry<string>>)
    ensures |r| <= 50
    ensures SortedDesc(r, ByCount)
    ensures multiset(r) <= multiset(Tally(AllKeys(ps)))
    ensures Total(r) <= |AllKeys(ps)|
  {
    Rank(Counts(ps))
  }
}

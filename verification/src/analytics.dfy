/**
 * The analytics route: symptom and medication frequencies, the 12-month
 * fever trend, the clinic roster and the overview figures, computed from
 * every user and every prescription document.
 *
 * The clock and the local calendar are parameters: `current` is the month
 * index (`year * 12 + month`) of the present month and a `Calendar` gives,
 * for any month index, the instants of the local midnights the route
 * constructs with `new Date(y, m, 1)` and `new Date(y, m + 1, 0)`.
 */
module Analytics {
  import opened Wrappers
  import opened Seqs
  import opened Ranking
  import opened Records
  import JsText
  import Instants
  import Buckets

  // ---------------------------------------------------------------- rounding

  /**
   * `total > 0 ? Math.round(count / total * 100) : 0`: the percentage
   * rounded to the nearest integer, halves rounded up.
   */
  function Percent(count: nat, total: nat): (r: nat)
    ensures total == 0 ==> r == 0
    ensures total > 0 ==> 2 * total * r <= 200 * count + total < 2 * total * (r + 1)
    ensures count <= total ==> r <= 100
  {
    if total == 0 then 0
    else
      DivBounds(200 * count + total, 2 * total);
      PercentAtMost(count, total);
      (200 * count + total) / (2 * total)
  }

  lemma PercentAtMost(count: nat, total: nat)
    requires total > 0
    ensures count <= total ==> (200 * count + total) / (2 * total) <= 100
  {
    if count <= total {
      DivAtMost(200 * count + total, 2 * total, 100);
    }
  }

  lemma DivBounds(a: nat, b: nat)
    requires b > 0
    ensures b * (a / b) <= a < b * (a / b + 1)
  {
    assert a == b * (a / b) + a % b;
  }

  lemma DivAtMost(a: nat, b: nat, k: nat)
    requires b > 0 && a < b * (k + 1)
    ensures a / b <= k
  {
    DivBounds(a, b);
  }

  /**
   * `Math.round(prescriptions / patients * 10) / 10`, kept in tenths: the
   * average number of prescriptions per patient to one decimal place, and
   * 0 when there are no patients.
   */
  /** `tenths` is `prescriptions / patients` to one decimal, halves rounded up, and 0 without patients. */
  predicate RoundedAverage(tenths: nat, prescriptions: nat, patients: nat) {
    if patients == 0 then tenths == 0
    else 2 * patients * tenths <= 20 * prescriptions + patients < 2 * patients * (tenths + 1)
  }

  /** At most one number of tenths is the rounded average, so `AverageTenths` is determined by it. */
  lemma RoundedAverageUnique(a: nat, b: nat, prescriptions: nat, patients: nat)
    requires RoundedAverage(a, prescriptions, patients) && RoundedAverage(b, prescriptions, patients)
    ensures a == b
  {
    if patients > 0 {
      var m := 2 * patients;
      assert m * a < m * (b + 1) && m * b < m * (a + 1);
      MulMonotone(m, a, b + 1);
      MulMonotone(m, b, a + 1);
    }
  }

  lemma MulMonotone(m: nat, x: nat, y: nat)
    ensures x >= y ==> m * x >= m * y
  {
  }

  function AverageTenths(prescriptions: nat, patients: nat): (r: nat)
    ensures patients == 0 ==> r == 0
    ensures patients > 0 ==> 2 * patients * r <= 20 * prescriptions + patients < 2 * patients * (r + 1)
    ensures RoundedAverage(r, prescriptions, patients)
  {
    if patients == 0 then 0
    else
      DivBounds(20 * prescriptions + patients, 2 * patients);
      (20 * prescriptions + patients) / (2 * patients)
  }

  // ---------------------------------------------------------------- symptoms

  /** `extractedData?.symptoms || symptoms || []`. */
  function SymptomsOf(p: Prescription): seq<Symptom> {
    FirstList(EdSymptoms(p), p.symptoms).GetOr([])
  }

  /** A string entry is its own name; an object uses `text`, else `name`, else "Unknown". */
  function SymptomLabel(s: Symptom): (r: string)
    ensures s.SymptomString? ==> r == s.raw
    ensures s.SymptomObject? && JsText.Truthy(s.text) ==> r == s.text.value
    ensures s.SymptomObject? && !JsText.Truthy(s.text) && JsText.Truthy(s.name) ==> r == s.name.value
    ensures s.SymptomObject? && !JsText.Truthy(s.text) && !JsText.Truthy(s.name) ==> r == "Unknown"
  {
    match s
    case SymptomString(raw) => raw
    case SymptomObject(text, name, _, _) => JsText.Or(JsText.OrElse(text, name), "Unknown")
  }

  /** The counting key: `name.toLowerCase().trim()`. */
  function SymptomKey(s: Symptom): string {
    JsText.Trim(JsText.Lower(SymptomLabel(s)))
  }

  function RecordSymptomKeys(p: Prescription): seq<string> {
    Map(SymptomsOf(p), SymptomKey)
  }

  /** One key per symptom entry, record by record, entry by entry. */
  function SymptomKeys(ps: seq<Prescription>): seq<string> {
    FlatMap(ps, RecordSymptomKeys)
  }

  /** `symptomsMap`: the insertion-ordered counts of the symptom keys. */
  function SymptomCounts(ps: seq<Prescription>): seq<Entry<string>> {
    Tally(SymptomKeys(ps))
  }

  /** The number of symptom entries over all records. */
  function SymptomEntries(ps: seq<Prescription>): nat
    decreases |ps|
  {
    if |ps| == 0 then 0 else SymptomEntries(ps[..|ps| - 1]) + |SymptomsOf(ps[|ps| - 1])|
  }

  lemma {:induction false} SymptomKeysLength(ps: seq<Prescription>)
    ensures |SymptomKeys(ps)| == SymptomEntries(ps)
    decreases |ps|
  {
    if |ps| > 0 {
      SymptomKeysLength(ps[..|ps| - 1]);
    }
  }

  /** The symptom counts add up to the number of symptom entries. */
  lemma {:induction false} SymptomCountsTotal(ps: seq<Prescription>)
    ensures Total(SymptomCounts(ps)) == SymptomEntries(ps)
  {
    TallyTotal(SymptomKeys(ps));
    SymptomKeysLength(ps);
  }

  /** Each further record adds exactly one to the key of each of its symptom entries. */
  lemma {:induction false} SymptomCountsStep(ps: seq<Prescription>, p: Prescription, k: string)
    ensures CountOf(SymptomCounts(ps + [p]), k)
         == CountOf(SymptomCounts(ps), k) + multiset(RecordSymptomKeys(p))[k]
  {
    var s := ps + [p];
    assert s[..|s| - 1] == ps;
    TallyCounts(SymptomKeys(s), k);
    TallyCounts(SymptomKeys(ps), k);
  }

  /** One row of `symptomsData`. */
  datatype SymptomRow = SymptomRow(symptom: string, count: nat, percentage: nat)

  function RowCount(r: SymptomRow): int {
    r.count
  }

  /** The rows before sorting, one per key in first-seen order, each with its share of `total`. */
  function SymptomTable(counts: seq<Entry<string>>, total: nat): seq<SymptomRow> {
    Map(counts, (e: Entry<string>) => SymptomRow(JsText.Capitalize(e.key), e.count, Percent(e.count, total)))
  }

  /** `symptomsData`: the ten most frequent symptoms, most frequent first. */
  function SymptomsData(ps: seq<Prescription>): (r: seq<SymptomRow>)
    ensures |r| <= 10
    ensures SortedDesc(r, RowCount)
    ensures forall i :: 0 <= i < |r| ==> r[i].percentage <= 100
    ensures forall i :: 0 <= i < |r| ==> r[i] in SymptomTable(SymptomCounts(ps), Total(SymptomCounts(ps)))
  {
    var counts := SymptomCounts(ps);
    var table := SymptomTable(counts, Total(counts));
    var r := TopN(table, RowCount, 10);
    forall i | 0 <= i < |r| ensures r[i] in table && r[i].percentage <= 100 {
      assert r[i] in multiset(table);
      var j :| 0 <= j < |table| && table[j] == r[i];
      EntryBelowTotal(counts, j);
    }
    r
  }

  /**
   * Every row names a symptom key, capitalised, with the number of entries
   * that normalise to that key and that number's share of all entries.
   */
  lemma {:induction false} SymptomRowMeaning(ps: seq<Prescription>, i: nat)
    requires i < |SymptomsData(ps)|
    ensures exists k :: SymptomsData(ps)[i]
                     == SymptomRow(JsText.Capitalize(k), multiset(SymptomKeys(ps))[k],
                                   Percent(multiset(SymptomKeys(ps))[k], SymptomEntries(ps)))
  {
    var counts := SymptomCounts(ps);
    var table := SymptomTable(counts, Total(counts));
    var row := SymptomsData(ps)[i];
    var j :| 0 <= j < |table| && table[j] == row;
    TallyDistinct(SymptomKeys(ps));
    CountOfEntry(counts, j);
    TallyCounts(SymptomKeys(ps), counts[j].key);
    SymptomCountsTotal(ps);
    var k := counts[j].key;
    assert row == SymptomRow(JsText.Capitalize(k), multiset(SymptomKeys(ps))[k],
                             Percent(multiset(SymptomKeys(ps))[k], SymptomEntries(ps)));
  }

  /** A symptom missing from the chart is no more frequent than any symptom shown. */
  lemma SymptomRowsAreTop(ps: seq<Prescription>, row: SymptomRow)
    requires row in SymptomTable(SymptomCounts(ps), Total(SymptomCounts(ps))) && row !in SymptomsData(ps)
    ensures |SymptomsData(ps)| == 10
    ensures forall i :: 0 <= i < 10 ==> SymptomsData(ps)[i].count >= row.count
  {
    var counts := SymptomCounts(ps);
    TopNExcluded(SymptomTable(counts, Total(counts)), RowCount, 10, row);
  }

  /** Rows with equal counts keep the order in which their symptoms were first seen. */
  lemma {:induction false} SymptomRowsStable(ps: seq<Prescription>, v: int)
    ensures var w := WithRank(SymptomTable(SymptomCounts(ps), Total(SymptomCounts(ps))), RowCount, v);
            var u := WithRank(SymptomsData(ps), RowCount, v);
            |u| <= |w| && u == w[..|u|]
  {
    var counts := SymptomCounts(ps);
    TopNStable(SymptomTable(counts, Total(counts)), RowCount, 10, v);
  }

  /** The percentages of the rows need not add up to 100: seven symptoms seen once each give 98. */
  lemma PercentagesNeedNotAddUp()
    ensures 7 * Percent(1, 7) == 98
  {
    assert Percent(1, 7) == 14;
  }

  // ---------------------------------------------------------------- medications

  /** `extractedData?.medications || extractedData?.prescriptions || medications || []`: never merged. */
  function MedicationsOf(p: Prescription): (r: seq<Medication>)
    ensures EdMedications(p).Some? ==> r == EdMedications(p).value
    ensures EdMedications(p).None? && EdPrescriptions(p).Some? ==> r == EdPrescriptions(p).value
    ensures EdMedications(p).None? && EdPrescriptions(p).None? && p.medications.Some? ==> r == p.medications.value
    ensures EdMedications(p).None? && EdPrescriptions(p).None? && p.medications.None? ==> r == []
  {
    FirstList(FirstList(EdMedications(p), EdPrescriptions(p)), p.medications).GetOr([])
  }

  /** `med.name || med.medication || "Unknown"`; a bare string has neither property. */
  function MedicationLabel(m: Medication): (r: string)
    ensures m.MedicationString? ==> r == "Unknown"
    ensures m.MedicationObject? && JsText.Truthy(m.name) ==> r == m.name.value
    ensures m.MedicationObject? && !JsText.Truthy(m.name) && JsText.Truthy(m.medication) ==> r == m.medication.value
    ensures m.MedicationObject? && !JsText.Truthy(m.name) && !JsText.Truthy(m.medication) ==> r == "Unknown"
  {
    JsText.Or(JsText.OrElse(MedicationName(m), MedicationField(m)), "Unknown")
  }

  function MedicationKey(m: Medication): string {
    JsText.Trim(JsText.Lower(MedicationLabel(m)))
  }

  function RecordMedicationKeys(p: Prescription): seq<string> {
    Map(MedicationsOf(p), MedicationKey)
  }

  function MedicationKeys(ps: seq<Prescription>): seq<string> {
    FlatMap(ps, RecordMedicationKeys)
  }

  function MedicationCounts(ps: seq<Prescription>): seq<Entry<string>> {
    Tally(MedicationKeys(ps))
  }

  function MedicationEntries(ps: seq<Prescription>): nat
    decreases |ps|
  {
    if |ps| == 0 then 0 else MedicationEntries(ps[..|ps| - 1]) + |MedicationsOf(ps[|ps| - 1])|
  }

  lemma {:induction false} MedicationKeysLength(ps: seq<Prescription>)
    ensures |MedicationKeys(ps)| == MedicationEntries(ps)
    decreases |ps|
  {
    if |ps| > 0 {
      MedicationKeysLength(ps[..|ps| - 1]);
    }
  }

  /** The medication counts with capitalised names, in first-seen order: the table `medicationsData` ranks. */
  function MedicationTable(ps: seq<Prescription>): seq<Entry<string>> {
    RenameKeys(MedicationCounts(ps), JsText.Capitalize)
  }

  /** `medicationsData`: the fifteen most frequent medications, capitalised, most frequent first. */
  function MedicationsData(ps: seq<Prescription>): (r: seq<Entry<string>>)
    ensures |r| == if |MedicationTable(ps)| < 15 then |MedicationTable(ps)| else 15
    ensures SortedDesc(r, ByCount)
    ensures multiset(r) <= multiset(MedicationTable(ps))
    ensures Total(r) <= MedicationEntries(ps)
  {
    var table := MedicationTable(ps);
    TopNSum(table, ByCount, 15, EntryCount);
    RenameKeysTotal(MedicationCounts(ps), JsText.Capitalize);
    TallyTotal(MedicationKeys(ps));
    MedicationKeysLength(ps);
    TopN(table, ByCount, 15)
  }

  /** A medication left out of the fifteen shown is taken by no more records than each one shown. */
  lemma MedicationsAreTop(ps: seq<Prescription>, e: Entry<string>)
    requires e in MedicationTable(ps) && e !in MedicationsData(ps)
    ensures |MedicationsData(ps)| == 15
    ensures forall i :: 0 <= i < 15 ==> MedicationsData(ps)[i].count >= e.count
  {
    TopNExcluded(MedicationTable(ps), ByCount, 15, e);
  }

  /** Medications with equal counts are shown in the order in which they were first seen. */
  lemma {:induction false} MedicationsStable(ps: seq<Prescription>, v: int)
    ensures var w := WithRank(MedicationTable(ps), ByCount, v);
            var u := WithRank(MedicationsData(ps), ByCount, v);
            |u| <= |w| && u == w[..|u|]
  {
    TopNStable(MedicationTable(ps), ByCount, 15, v);
  }

  /** Every medication entry adds exactly one to the count of its key. */
  lemma {:induction false} MedicationCountsExact(ps: seq<Prescription>, k: string)
    ensures CountOf(MedicationCounts(ps), k) == multiset(MedicationKeys(ps))[k]
  {
    TallyCounts(MedicationKeys(ps), k);
  }

  // ---------------------------------------------------------------- fever trend

  /**
   * Local midnights by month index: `monthStart(m)` is `new Date(y, m, 1)`
   * and `lastDayStart(m)` is `new Date(y, m + 1, 0)`, the first instant of
   * the month's last day.
   */
  datatype Calendar = Calendar(monthStart: int -> int, lastDayStart: int -> int)

  /** Months follow one another, and a month's last day lasts longer than a millisecond. */
  ghost predicate WellFormed(cal: Calendar) {
    forall m {:trigger cal.lastDayStart(m)} :: cal.monthStart(m) < cal.lastDayStart(m) && cal.lastDayStart(m) + 1 < cal.monthStart(m + 1)
  }

  /** The text searched for fever words: a string entry, else `text`, else `name`, else "". */
  function FeverText(s: Symptom): string {
    match s
    case SymptomString(raw) => raw
    case SymptomObject(text, name, _, _) => JsText.Or(JsText.OrElse(text, name), "")
  }

  predicate MentionsFever(s: Symptom) {
    var t := JsText.Lower(FeverText(s));
    JsText.Contains(t, "fever") || JsText.Contains(t, "temperature") || JsText.Contains(t, "pyrexia")
  }

  /** Some symptom of the record mentions fever, temperature or pyrexia, in any case. */
  predicate HasFever(p: Prescription) {
    exists i :: 0 <= i < |SymptomsOf(p)| && MentionsFever(SymptomsOf(p)[i])
  }

  /** `new Date(createdAt || prescriptionDate)`. */
  function RecordDate(p: Prescription, parse: Instants.Parser): Instants.Instant {
    Instants.FromText(JsText.OrElse(p.createdAt, p.prescriptionDate), parse)
  }

  /** The route's test: a fever record dated from the month's start up to the start of its last day. */
  predicate FeverInMonthAsWritten(p: Prescription, m: int, cal: Calendar, parse: Instants.Parser) {
    var d := RecordDate(p, parse);
    HasFever(p) && d.Valid? && cal.monthStart(m) <= d.ms <= cal.lastDayStart(m)
  }

  /** A fever record dated within the month: from its start up to the start of the next month. */
  predicate FeverInMonth(p: Prescription, m: int, cal: Calendar, parse: Instants.Parser) {
    var d := RecordDate(p, parse);
    HasFever(p) && d.Valid? && cal.monthStart(m) <= d.ms < cal.monthStart(m + 1)
  }

  function FeverHitAsWritten(cal: Calendar, parse: Instants.Parser): (Prescription, int) -> bool {
    (p: Prescription, m: int) => FeverInMonthAsWritten(p, m, cal, parse)
  }

  function FeverHit(cal: Calendar, parse: Instants.Parser): (Prescription, int) -> bool {
    (p: Prescription, m: int) => FeverInMonth(p, m, cal, parse)
  }

  /** One point of `feverTrends`: a month index and the number of fever records in it. */
  datatype FeverBucket = FeverBucket(month: int, patients: nat)

  function Patients(bs: seq<FeverBucket>): seq<nat> {
    Map(bs, (b: FeverBucket) => b.patients)
  }

  /** Label the counts of consecutive months starting at `first`. */
  function MonthBuckets(counts: seq<nat>, first: int): (r: seq<FeverBucket>)
    ensures |r| == |counts|
    ensures forall j :: 0 <= j < |r| ==> r[j] == FeverBucket(first + j, counts[j])
  {
    seq(|counts|, j requires 0 <= j < |counts| => FeverBucket(first + j, counts[j]))
  }

  /** The trend as the route computes it, with the month's last day cut off after its first instant. */
  function FeverTrendAsWritten(ps: seq<Prescription>, cal: Calendar, current: int, parse: Instants.Parser)
    : (r: seq<FeverBucket>)
    ensures |r| == 12 && r[11].month == current
    ensures forall j :: 0 <= j < 12 ==> r[j].month == current - 11 + j
    ensures forall j :: 0 <= j < 12 ==> r[j].patients <= |ps|
  {
    MonthBuckets(Buckets.Histogram(ps, FeverHitAsWritten(cal, parse), current - 11, 12), current - 11)
  }

  /** The twelve months ending with the current one, oldest first, each with its fever records. */
  function FeverTrend(ps: seq<Prescription>, cal: Calendar, current: int, parse: Instants.Parser)
    : (r: seq<FeverBucket>)
    ensures |r| == 12 && r[11].month == current
    ensures forall j :: 0 <= j < 12 ==> r[j].month == current - 11 + j
    ensures forall j :: 0 <= j < 12 ==> r[j].patients <= |ps|
  {
    MonthBuckets(Buckets.Histogram(ps, FeverHit(cal, parse), current - 11, 12), current - 11)
  }

  lemma {:induction false} MonthStartMonotone(cal: Calendar, a: int, b: int)
    requires WellFormed(cal) && a <= b
    ensures cal.monthStart(a) <= cal.monthStart(b)
    ensures a < b ==> cal.monthStart(a) < cal.monthStart(b)
    decreases b - a
  {
    if a < b {
      MonthStartMonotone(cal, a, b - 1);
      assert cal.monthStart(b - 1) < cal.lastDayStart(b - 1) && cal.lastDayStart(b - 1) + 1 < cal.monthStart(b - 1 + 1);
    }
  }

  /** A date falls in at most one month. */
  lemma FeverExclusive(ps: seq<Prescription>, cal: Calendar, parse: Instants.Parser)
    requires WellFormed(cal)
    ensures Buckets.Exclusive(ps, FeverHit(cal, parse))
  {
    var hit := FeverHit(cal, parse);
    forall i, a, b | 0 <= i < |ps| && hit(ps[i], a) && hit(ps[i], b) ensures a == b {
      if a < b {
        MonthStartMonotone(cal, a + 1, b);
      } else if b < a {
        MonthStartMonotone(cal, b + 1, a);
      }
    }
  }

  /** Being counted in one of `n` months starting at `first` means being dated in their span. */
  lemma {:induction false} FeverWithin(p: Prescription, cal: Calendar, parse: Instants.Parser, first: int, n: nat)
    requires WellFormed(cal)
    ensures var d := RecordDate(p, parse);
            Buckets.HitsWithin(p, FeverHit(cal, parse), first, n)
            <==> n > 0 && HasFever(p) && d.Valid? && cal.monthStart(first) <= d.ms < cal.monthStart(first + n)
    decreases n
  {
    if n > 0 {
      FeverWithin(p, cal, parse, first, n - 1);
      MonthStartMonotone(cal, first, first + n - 1);
      MonthStartMonotone(cal, first + n - 1, first + n);
    }
  }

  /** The number of fever records dated from `lo` (inclusive) to `hi` (exclusive). */
  function FeverRecordsBetween(ps: seq<Prescription>, lo: int, hi: int, parse: Instants.Parser): (r: nat)
    ensures r <= |ps|
    decreases |ps|
  {
    if |ps| == 0 then 0
    else
      var p := ps[|ps| - 1];
      var d := RecordDate(p, parse);
      FeverRecordsBetween(ps[..|ps| - 1], lo, hi, parse)
        + (if HasFever(p) && d.Valid? && lo <= d.ms < hi then 1 else 0)
  }

  lemma {:induction false} CountWithinFever(ps: seq<Prescription>, cal: Calendar, parse: Instants.Parser, first: int, n: nat)
    requires WellFormed(cal) && n > 0
    ensures Buckets.CountWithin(ps, FeverHit(cal, parse), first, n)
         == FeverRecordsBetween(ps, cal.monthStart(first), cal.monthStart(first + n), parse)
    decreases |ps|
  {
    if |ps| > 0 {
      CountWithinFever(ps[..|ps| - 1], cal, parse, first, n);
      FeverWithin(ps[|ps| - 1], cal, parse, first, n);
    }
  }

  /**
   * The twelve buckets together count every fever record dated from the
   * start of the first month to the end of the current one, each once.
   */
  lemma {:induction false} FeverTrendTotal(ps: seq<Prescription>, cal: Calendar, current: int, parse: Instants.Parser)
    requires WellFormed(cal)
    ensures Buckets.Sum(Patients(FeverTrend(ps, cal, current, parse)))
         == FeverRecordsBetween(ps, cal.monthStart(current - 11), cal.monthStart(current + 1), parse)
  {
    var h := Buckets.Histogram(ps, FeverHit(cal, parse), current - 11, 12);
    assert Patients(FeverTrend(ps, cal, current, parse)) == h;
    FeverExclusive(ps, cal, parse);
    Buckets.HistogramSum(ps, FeverHit(cal, parse), current - 11, 12);
    CountWithinFever(ps, cal, parse, current - 11, 12);
  }

  /** The route's month test never counts more than the whole-month test. */
  lemma FeverAsWrittenUndercounts(ps: seq<Prescription>, cal: Calendar, current: int, parse: Instants.Parser)
    requires WellFormed(cal)
    ensures forall j :: 0 <= j < 12 ==>
              FeverTrendAsWritten(ps, cal, current, parse)[j].patients <= FeverTrend(ps, cal, current, parse)[j].patients
  {
    forall j | 0 <= j < 12
      ensures FeverTrendAsWritten(ps, cal, current, parse)[j].patients <= FeverTrend(ps, cal, current, parse)[j].patients
    {
      var m := current - 11 + j;
      forall i | 0 <= i < |ps| && FeverHitAsWritten(cal, parse)(ps[i], m) ensures FeverHit(cal, parse)(ps[i], m) {
        assert cal.lastDayStart(m) + 1 < cal.monthStart(m + 1);
      }
      Buckets.CountHitsMonotone(ps, FeverHitAsWritten(cal, parse), FeverHit(cal, parse), m);
    }
  }

  /**
   * A fever record made one millisecond after midnight on the last day of a
   * month in the window is missed by every bucket of the route's trend,
   * while the whole-month trend counts it in its month.
   */
  lemma FeverMonthEndMissed(p: Prescription, cal: Calendar, current: int, m: int, parse: Instants.Parser)
    requires WellFormed(cal) && current - 11 <= m <= current
    requires HasFever(p) && RecordDate(p, parse) == Instants.Valid(cal.lastDayStart(m) + 1)
    ensures forall j :: 0 <= j < 12 ==> FeverTrendAsWritten([p], cal, current, parse)[j].patients == 0
    ensures FeverTrend([p], cal, current, parse)[m - current + 11].patients == 1
  {
    forall j | 0 <= j < 12 ensures FeverTrendAsWritten([p], cal, current, parse)[j].patients == 0 {
      AsWrittenMisses(p, cal, m, current - 11 + j, parse);
      Buckets.CountHitsOne(p, FeverHitAsWritten(cal, parse), current - 11 + j);
    }
    assert cal.lastDayStart(m) + 1 < cal.monthStart(m + 1) && cal.monthStart(m) < cal.lastDayStart(m);
    assert FeverInMonth(p, m, cal, parse);
    Buckets.CountHitsOne(p, FeverHit(cal, parse), m);
  }

  /** No month as the route bounds it holds the instant just after midnight on the last day of month `m`. */
  lemma AsWrittenMisses(p: Prescription, cal: Calendar, m: int, k: int, parse: Instants.Parser)
    requires WellFormed(cal)
    requires RecordDate(p, parse) == Instants.Valid(cal.lastDayStart(m) + 1)
    ensures !FeverInMonthAsWritten(p, k, cal, parse)
  {
    if k < m {
      MonthStartMonotone(cal, k + 1, m);
      assert cal.lastDayStart(k) + 1 < cal.monthStart(k + 1);
    } else if k > m {
      MonthStartMonotone(cal, m + 1, k);
      assert cal.lastDayStart(m) + 1 < cal.monthStart(m + 1);
    }
  }

  // ---------------------------------------------------------------- clinics and overview

  predicate IsPatient(u: User) {
    u.role == Some("patient")
  }

  predicate IsDoctor(u: User) {
    u.role == Some("doctor")
  }

  /** `doctor.clinic || doctor.hospital || "General Clinic"`. */
  function ClinicOf(u: User): (r: string)
    ensures JsText.Truthy(u.clinic) ==> r == u.clinic.value
    ensures !JsText.Truthy(u.clinic) && JsText.Truthy(u.hospital) ==> r == u.hospital.value
    ensures !JsText.Truthy(u.clinic) && !JsText.Truthy(u.hospital) ==> r == "General Clinic"
  {
    JsText.Or(JsText.OrElse(u.clinic, u.hospital), "General Clinic")
  }

  /** `clinicsData`: every clinic with its number of doctors, most doctors first, not truncated. */
  function ClinicsData(users: seq<User>): (r: seq<Entry<string>>)
    ensures SortedDesc(r, ByCount)
    ensures Total(r) == |Filter(users, IsDoctor)|
    ensures multiset(r) == multiset(Tally(Map(Filter(users, IsDoctor), ClinicOf)))
  {
    var counts := Tally(Map(Filter(users, IsDoctor), ClinicOf));
    var r := SortDesc(counts, ByCount);
    TallyTotal(Map(Filter(users, IsDoctor), ClinicOf));
    SumOfPermutation(r, counts, EntryCount);
    r
  }

  /** `patientId || userId`: the empty string and a missing id count as two further values. */
  function ActiveKey(p: Prescription): Option<string> {
    JsText.OrElse(p.patientId, p.userId)
  }

  function KeySet(ks: seq<Option<string>>): set<Option<string>>
    decreases |ks|
  {
    if |ks| == 0 then {} else KeySet(ks[..|ks| - 1]) + {ks[|ks| - 1]}
  }

  lemma {:induction false} KeySetMembers(ks: seq<Option<string>>, k: Option<string>)
    ensures k in KeySet(ks) <==> k in ks
    decreases |ks|
  {
    if |ks| > 0 {
      KeySetMembers(ks[..|ks| - 1], k);
      assert ks == ks[..|ks| - 1] + [ks[|ks| - 1]];
    }
  }

  /** `new Set(prescriptions.map(p => p.patientId || p.userId)).size`. */
  function ActivePatients(ps: seq<Prescription>): nat {
    |KeySet(Map(ps, ActiveKey))|
  }

  /** The active-patient count is the number of distinct keys, which is at most the number of records. */
  lemma {:induction false} ActivePatientsDistinct(ks: seq<Option<string>>)
    ensures |KeySet(ks)| == |DedupBy(ks, Identity)|
    ensures |KeySet(ks)| <= |ks|
    ensures |ks| > 0 ==> |KeySet(ks)| > 0
    decreases |ks|
  {
    if |ks| > 0 {
      var pre := ks[..|ks| - 1];
      ActivePatientsDistinct(pre);
      LastKeyStep(ks);
      if ks[|ks| - 1] in pre {
        assert |pre| > 0;
      }
    }
  }

  /** The last key adds one to both counts exactly when it is new. */
  lemma LastKeyStep(ks: seq<Option<string>>)
    requires |ks| > 0
    ensures var pre, x := ks[..|ks| - 1], ks[|ks| - 1];
            && |KeySet(ks)| == |KeySet(pre)| + (if x in pre then 0 else 1)
            && |DedupBy(ks, Identity)| == |DedupBy(pre, Identity)| + (if x in pre then 0 else 1)
  {
    KeySetStep(ks);
    DedupLengthStep(ks);
  }

  lemma KeySetStep(ks: seq<Option<string>>)
    requires |ks| > 0
    ensures var pre, x := ks[..|ks| - 1], ks[|ks| - 1];
            |KeySet(ks)| == |KeySet(pre)| + (if x in pre then 0 else 1)
  {
    var pre, x := ks[..|ks| - 1], ks[|ks| - 1];
    KeySetMembers(pre, x);
    assert KeySet(ks) == KeySet(pre) + {x};
    if x !in pre {
      assert x !in KeySet(pre);
      assert |KeySet(pre) + {x}| == |KeySet(pre)| + |{x}|;
    } else {
      assert KeySet(pre) + {x} == KeySet(pre);
    }
  }

  lemma DedupLengthStep(ks: seq<Option<string>>)
    requires |ks| > 0
    ensures var pre, x := ks[..|ks| - 1], ks[|ks| - 1];
            |DedupBy(ks, Identity)| == |DedupBy(pre, Identity)| + (if x in pre then 0 else 1)
  {
    var pre, x := ks[..|ks| - 1], ks[|ks| - 1];
    TallyKeysStep(ks, DedupBy(pre, Identity));
    DedupMembers(pre, x);
  }

  lemma {:induction false} DedupMembers(pre: seq<Option<string>>, x: Option<string>)
    ensures x in DedupBy(pre, Identity) <==> x in pre
  {
    var d := DedupBy(pre, Identity);
    SubsequenceMembers(d, pre);
    if x in pre {
      var i :| 0 <= i < |pre| && pre[i] == x;
      assert HasKey(d, Identity, Identity(pre[i]));
    }
  }

  datatype Overview = Overview(totalPatients: nat, totalDoctors: nat, totalPrescriptions: nat,
                               activePatients: nat, averageTenths: nat)

  /**
   * `overview`: patients and doctors by role, all prescriptions, the distinct
   * `patientId || userId` keys, and prescriptions per patient to one decimal.
   */
  function MakeOverview(users: seq<User>, ps: seq<Prescription>): (r: Overview)
    ensures r.totalPatients == Count(users, IsPatient) && r.totalDoctors == Count(users, IsDoctor)
    ensures r.totalPrescriptions == |ps|
    ensures r.activePatients == ActivePatients(ps) == |DedupBy(Map(ps, ActiveKey), Identity)|
    ensures RoundedAverage(r.averageTenths, |ps|, r.totalPatients)
    ensures r.activePatients <= r.totalPrescriptions
    ensures r.totalPrescriptions > 0 ==> r.activePatients > 0
    ensures r.totalPatients + r.totalDoctors <= |users|
  {
    ActivePatientsDistinct(Map(ps, ActiveKey));
    PatientsAndDoctors(users);
    var patients := |Filter(users, IsPatient)|;
    Overview(patients, |Filter(users, IsDoctor)|, |ps|, ActivePatients(ps), AverageTenths(|ps|, patients))
  }

  /** A key is active exactly when some prescription carries it as `patientId || userId`. */
  lemma OverviewActiveKeys(ps: seq<Prescription>, k: Option<string>)
    ensures k in KeySet(Map(ps, ActiveKey)) <==> exists i :: 0 <= i < |ps| && ActiveKey(ps[i]) == k
  {
    var ks := Map(ps, ActiveKey);
    KeySetMembers(ks, k);
    if k in ks {
      var i :| 0 <= i < |ks| && ks[i] == k;
      assert ActiveKey(ps[i]) == k;
    }
  }

  /** No user is both a patient and a doctor. */
  lemma {:induction false} PatientsAndDoctors(users: seq<User>)
    ensures |Filter(users, IsPatient)| + |Filter(users, IsDoctor)| <= |users|
    decreases |users|
  {
    if |users| > 0 {
      PatientsAndDoctors(users[..|users| - 1]);
    }
  }

  /** The response of the analytics route. */
  datatype Report = Report(overview: Overview, symptoms: seq<SymptomRow>, medications: seq<Entry<string>>,
                           feverTrend: seq<FeverBucket>, clinics: seq<Entry<string>>)

  /** The analytics route as written: its fever trend cuts each month off after the first instant of its last day. */
  function AnalyticsReportAsWritten(users: seq<User>, ps: seq<Prescription>, cal: Calendar, current: int,
                                    parse: Instants.Parser): (r: Report)
    ensures |r.symptoms| <= 10 && |r.medications| <= 15 && |r.feverTrend| == 12
    ensures r.feverTrend[11].month == current
    ensures Total(r.clinics) == r.overview.totalDoctors
    ensures r.overview.activePatients <= r.overview.totalPrescriptions == |ps|
    ensures r.(feverTrend := FeverTrend(ps, cal, current, parse)) == AnalyticsReport(users, ps, cal, current, parse)
    ensures r.overview == MakeOverview(users, ps) && r.clinics == ClinicsData(users)
    ensures r.symptoms == SymptomsData(ps) && r.medications == MedicationsData(ps)
    ensures r.feverTrend == FeverTrendAsWritten(ps, cal, current, parse)
  {
    Report(MakeOverview(users, ps), SymptomsData(ps), MedicationsData(ps), FeverTrendAsWritten(ps, cal, current, parse),
           ClinicsData(users))
  }

  /** The analytics route corrected: the fever trend counts whole months; everything else is as written. */
  function AnalyticsReport(users: seq<User>, ps: seq<Prescription>, cal: Calendar, current: int,
                           parse: Instants.Parser): (r: Report)
    ensures |r.symptoms| <= 10 && |r.medications| <= 15 && |r.feverTrend| == 12
    ensures r.feverTrend[11].month == current
    ensures Total(r.clinics) == r.overview.totalDoctors
    ensures r.overview.activePatients <= r.overview.totalPrescriptions == |ps|
    ensures r.overview == MakeOverview(users, ps) && r.clinics == ClinicsData(users)
    ensures r.symptoms == SymptomsData(ps) && r.medications == MedicationsData(ps)
    ensures r.feverTrend == FeverTrend(ps, cal, current, parse)
  {
    Report(MakeOverview(users, ps), SymptomsData(ps), MedicationsData(ps), FeverTrend(ps, cal, current, parse),
           ClinicsData(users))
  }

  /** The corrected report's fever trend counts every fever record of the twelve months, once. */
  lemma {:induction false} ReportFeverTotal(users: seq<User>, ps: seq<Prescription>, cal: Calendar, current: int, parse: Instants.Parser)
    requires WellFormed(cal)
    ensures Buckets.Sum(Patients(AnalyticsReport(users, ps, cal, current, parse).feverTrend))
         == FeverRecordsBetween(ps, cal.monthStart(current - 11), cal.monthStart(current + 1), parse)
  {
    FeverTrendTotal(ps, cal, current, parse);
  }

  /** Month by month, the route as written reports no more fever patients than the corrected one. */
  lemma ReportFeverUndercounts(users: seq<User>, ps: seq<Prescription>, cal: Calendar, current: int,
                               parse: Instants.Parser)
    requires WellFormed(cal)
    ensures forall j :: 0 <= j < 12 ==>
              AnalyticsReportAsWritten(users, ps, cal, current, parse).feverTrend[j].patients
              <= AnalyticsReport(users, ps, cal, current, parse).feverTrend[j].patients
  {
    FeverAsWrittenUndercounts(ps, cal, current, parse);
  }
}

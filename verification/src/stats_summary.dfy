/**
 * The statistics summary route: prescriptions filtered by an optional date
 * range, the number of distinct patient ids, the ten busiest clinics and a
 * 30-day series of prescriptions per UTC day.
 *
 * The range bounds arrive as query-string text and are read with the
 * caller's date parser; the present moment enters through `stepBack`, the
 * UTC day reached by stepping back a number of local calendar days.
 */
module StatsSummary {
  import opened Wrappers
  import opened Seqs
  import opened Ranking
  import opened Records
  import JsText
  import Instants
  import Buckets

  /**
   * The instant a record was uploaded: `uploadedAt.seconds * 1000` when the
   * seconds are truthy, else `new Date(createdAt)` when `createdAt` is
   * truthy; `None` when neither, and such a record is dropped.
   */
  function UploadedAt(p: Prescription, parse: Instants.Parser): (r: Option<Instants.Instant>)
    ensures HasUploadSeconds(p) ==> r == Some(Instants.FromMillis(p.uploadedSeconds.value * 1000))
    ensures !HasUploadSeconds(p) && JsText.Truthy(p.createdAt) ==> r == Some(parse(p.createdAt.value))
    ensures r.None? <==> !HasUploadSeconds(p) && !JsText.Truthy(p.createdAt)
  {
    if HasUploadSeconds(p) then Some(Instants.FromMillis(p.uploadedSeconds.value * 1000))
    else if JsText.Truthy(p.createdAt) then Some(parse(p.createdAt.value))
    else None
  }

  /** `from ? new Date(from) : null`: an empty or missing parameter sets no bound. */
  function Bound(param: Option<string>, parse: Instants.Parser): (r: Option<Instants.Instant>)
    ensures r.Some? <==> JsText.Truthy(param)
  {
    if JsText.Truthy(param) then Some(parse(param.value)) else None
  }

  /**
   * Kept unless before `from` or after `to`, both inclusive.  Comparisons
   * with an invalid date are false, so an invalid instant, or an invalid
   * bound, never excludes anything.
   */
  predicate InRange(u: Instants.Instant, from: Option<Instants.Instant>, to: Option<Instants.Instant>) {
    !(from.Some? && Instants.Less(u, from.value)) && !(to.Some? && Instants.Less(to.value, u))
  }

  /** The route's filter: a record with an upload instant that is not out of range. */
  predicate KeptAsWritten(p: Prescription, from: Option<Instants.Instant>, to: Option<Instants.Instant>,
                          parse: Instants.Parser) {
    UploadedAt(p, parse).Some? && InRange(UploadedAt(p, parse).value, from, to)
  }

  /** The filter with undatable records dropped as well. */
  predicate Kept(p: Prescription, from: Option<Instants.Instant>, to: Option<Instants.Instant>,
                 parse: Instants.Parser) {
    KeptAsWritten(p, from, to, parse) && UploadedAt(p, parse).value.Valid?
  }

  function KeepAsWritten(from: Option<Instants.Instant>, to: Option<Instants.Instant>, parse: Instants.Parser)
    : Prescription -> bool
  {
    (p: Prescription) => KeptAsWritten(p, from, to, parse)
  }

  function Keep(from: Option<Instants.Instant>, to: Option<Instants.Instant>, parse: Instants.Parser)
    : Prescription -> bool
  {
    (p: Prescription) => Kept(p, from, to, parse)
  }

  /** Both ends of the range are inclusive. */
  lemma RangeInclusive(lo: int, hi: int, ms: int)
    requires lo <= ms <= hi
    ensures InRange(Instants.Valid(ms), Some(Instants.Valid(lo)), Some(Instants.Valid(hi)))
    ensures !InRange(Instants.Valid(lo - 1), Some(Instants.Valid(lo)), Some(Instants.Valid(hi)))
    ensures !InRange(Instants.Valid(hi + 1), Some(Instants.Valid(lo)), Some(Instants.Valid(hi)))
  {
  }

  /** An unparseable bound filters nothing out. */
  lemma InvalidBoundIgnored(u: Instants.Instant)
    ensures InRange(u, Some(Instants.Invalid), Some(Instants.Invalid))
  {
  }

  // ---------------------------------------------------------------- unique patients

  /** The ids a record adds to the patient set: its truthy `userId` and its truthy `patientId`. */
  function RecordIds(p: Prescription): (r: set<string>)
    ensures forall x :: x in r <==> ((JsText.Truthy(p.userId) && x == p.userId.value)
                                    || (JsText.Truthy(p.patientId) && x == p.patientId.value))
  {
    (if JsText.Truthy(p.userId) then {p.userId.value} else {})
      + (if JsText.Truthy(p.patientId) then {p.patientId.value} else {})
  }

  function PatientIds(ps: seq<Prescription>): set<string>
    decreases |ps|
  {
    if |ps| == 0 then {} else PatientIds(ps[..|ps| - 1]) + RecordIds(ps[|ps| - 1])
  }

  /** An id is counted exactly when some record names it, non-empty, as its user or its patient. */
  lemma {:induction false} PatientIdsMembers(ps: seq<Prescription>, x: string)
    ensures x in PatientIds(ps) <==> exists i :: 0 <= i < |ps| && x in RecordIds(ps[i])
    decreases |ps|
  {
    if |ps| > 0 {
      var pre := ps[..|ps| - 1];
      PatientIdsMembers(pre, x);
      if x in PatientIds(pre) {
        var i :| 0 <= i < |pre| && x in RecordIds(pre[i]);
        assert ps[i] == pre[i];
      }
      if exists i :: 0 <= i < |ps| && x in RecordIds(ps[i]) {
        var i :| 0 <= i < |ps| && x in RecordIds(ps[i]);
        if i < |pre| {
          assert pre[i] == ps[i];
        }
      }
    }
  }

  /** Each record contributes at most two ids. */
  lemma {:induction false} PatientIdsBound(ps: seq<Prescription>)
    ensures |PatientIds(ps)| <= 2 * |ps|
    decreases |ps|
  {
    if |ps| > 0 {
      var pre := ps[..|ps| - 1];
      var ids := RecordIds(ps[|ps| - 1]);
      PatientIdsBound(pre);
      assert |ids| <= 2;
      assert |PatientIds(pre) + ids| <= |PatientIds(pre)| + |ids|;
    }
  }

  // ---------------------------------------------------------------- top clinics

  /** `extractedData?.doctorInfo?.clinic`, when truthy. */
  function ClinicOf(p: Prescription): Option<string> {
    EdDoctor(p, DoctorInfoClinic)
  }

  /** The clinic of each record that names one, in record order. */
  function ClinicKeys(ps: seq<Prescription>): (r: seq<string>)
    ensures |r| <= |ps|
    decreases |ps|
  {
    if |ps| == 0 then []
    else
      var c := ClinicOf(ps[|ps| - 1]);
      ClinicKeys(ps[..|ps| - 1]) + (if JsText.Truthy(c) then [c.value] else [])
  }

  /** The clinic counts in the counting object's property order: the table `topClinics` ranks. */
  function ClinicTable(ps: seq<Prescription>): seq<Entry<string>> {
    ObjectOrder(Tally(ClinicKeys(ps)))
  }

  /**
   * `topClinics`: the counting record's entries in property order, sorted by
   * count, the first ten.
   */
  function TopClinics(ps: seq<Prescription>): (r: seq<Entry<string>>)
    ensures |r| == if |ClinicTable(ps)| < 10 then |ClinicTable(ps)| else 10
    ensures SortedDesc(r, ByCount)
    ensures Total(r) <= |ps|
    ensures multiset(r) <= multiset(Tally(ClinicKeys(ps)))
  {
    var counts := Tally(ClinicKeys(ps));
    var ordered := ClinicTable(ps);
    TallyTotal(ClinicKeys(ps));
    ObjectOrderTotal(counts);
    TopNSum(ordered, ByCount, 10, EntryCount);
    TopN(ordered, ByCount, 10)
  }

  /** A clinic left out of the ten shown has no more records than each one shown. */
  lemma TopClinicsAreTop(ps: seq<Prescription>, e: Entry<string>)
    requires e in ClinicTable(ps) && e !in TopClinics(ps)
    ensures |TopClinics(ps)| == 10
    ensures forall i :: 0 <= i < 10 ==> TopClinics(ps)[i].count >= e.count
  {
    TopNExcluded(ClinicTable(ps), ByCount, 10, e);
  }

  /** Clinics with equal counts are shown in the counting object's property order. */
  lemma {:induction false} TopClinicsStable(ps: seq<Prescription>, v: int)
    ensures var w := WithRank(ClinicTable(ps), ByCount, v);
            var u := WithRank(TopClinics(ps), ByCount, v);
            |u| <= |w| && u == w[..|u|]
  {
    TopNStable(ClinicTable(ps), ByCount, 10, v);
  }

  /** Each record naming a clinic adds exactly one to that clinic's count. */
  lemma {:induction false} ClinicCountsExact(ps: seq<Prescription>, clinic: string)
    ensures CountOf(Tally(ClinicKeys(ps)), clinic) == multiset(ClinicKeys(ps))[clinic]
  {
    TallyCounts(ClinicKeys(ps), clinic);
  }

  // ---------------------------------------------------------------- daily series

  /** The record was uploaded on UTC day `d`. */
  predicate OnDay(p: Prescription, d: int, parse: Instants.Parser) {
    var u := UploadedAt(p, parse);
    u.Some? && u.value.Valid? && Instants.DayNumber(u.value.ms) == d
  }

  function DayHit(parse: Instants.Parser): (Prescription, int) -> bool {
    (p: Prescription, d: int) => OnDay(p, d, parse)
  }

  /** One point of the series: a UTC day number and the prescriptions uploaded that day. */
  datatype DayPoint = DayPoint(day: int, count: nat)

  function Counts(pts: seq<DayPoint>): seq<nat> {
    Map(pts, (pt: DayPoint) => pt.count)
  }

  /**
   * The series' day keys, oldest first: `stepBack(k)` is the UTC day number
   * of the present moment moved back `k` local calendar days with
   * `setDate`.  Where the local zone changes its offset within the thirty
   * days, two keys can name the same UTC day and a UTC day can be skipped.
   */
  function DayKeys(stepBack: int -> int): (r: seq<int>)
    ensures |r| == 30
    ensures forall i :: 0 <= i < 30 ==> r[i] == stepBack(29 - i)
  {
    seq(30, i requires 0 <= i < 30 => stepBack(29 - i))
  }

  /** One point per stepped-back day, oldest first, zero where nothing was uploaded. */
  function Series(filtered: seq<Prescription>, stepBack: int -> int, parse: Instants.Parser): (r: seq<DayPoint>)
    ensures |r| == 30 && r[29].day == stepBack(0)
    ensures forall i :: 0 <= i < 30 ==> r[i].day == stepBack(29 - i)
    ensures forall i :: 0 <= i < 30 ==> r[i].count == Buckets.CountHits(filtered, DayHit(parse), stepBack(29 - i))
  {
    var keys := DayKeys(stepBack);
    var h := Buckets.KeyHistogram(filtered, DayHit(parse), keys);
    seq(30, i requires 0 <= i < 30 => DayPoint(keys[i], h[i]))
  }

  /**
   * When the thirty stepped-back days are thirty different UTC days, the
   * series counts each record uploaded on one of them once, so it adds up to
   * at most the total.
   */
  lemma {:induction false} SeriesTotal(filtered: seq<Prescription>, stepBack: int -> int, parse: Instants.Parser)
    requires Buckets.Distinct(DayKeys(stepBack))
    ensures Buckets.Sum(Counts(Series(filtered, stepBack, parse)))
         == Buckets.CountAny(filtered, DayHit(parse), DayKeys(stepBack))
    ensures Buckets.Sum(Counts(Series(filtered, stepBack, parse))) <= |filtered|
  {
    assert Counts(Series(filtered, stepBack, parse)) == Buckets.KeyHistogram(filtered, DayHit(parse), DayKeys(stepBack));
    Buckets.KeyHistogramSum(filtered, DayHit(parse), DayKeys(stepBack));
  }

  /**
   * Where the offset never changes, the keys are the thirty consecutive UTC
   * days ending today and the series counts the records of that window.
   */
  lemma {:induction false} SeriesSteadyZone(filtered: seq<Prescription>, today: int, stepBack: int -> int,
                                            parse: Instants.Parser)
    requires forall k :: 0 <= k < 30 ==> stepBack(k) == today - k
    ensures forall i :: 0 <= i < 30 ==> Series(filtered, stepBack, parse)[i].day == today - 29 + i
    ensures Buckets.Sum(Counts(Series(filtered, stepBack, parse)))
         == Buckets.CountWithin(filtered, DayHit(parse), today - 29, 30)
  {
    var r := Series(filtered, stepBack, parse);
    forall i | 0 <= i < 30 ensures r[i].day == today - 29 + i && r[i].count == Buckets.CountHits(filtered, DayHit(parse), today - 29 + i) {
      assert stepBack(29 - i) == today - (29 - i);
    }
    assert Counts(r) == Buckets.Histogram(filtered, DayHit(parse), today - 29, 30);
    Buckets.HistogramSum(filtered, DayHit(parse), today - 29, 30);
  }

  /**
   * When two steps land on the same UTC day, that day appears twice in the
   * series and its records are counted twice in the series' sum.
   */
  lemma {:induction false} RepeatedDayCountsTwice(filtered: seq<Prescription>, stepBack: int -> int,
                                                  parse: Instants.Parser, a: int, b: int)
    requires 0 <= a < b < 30 && stepBack(a) == stepBack(b)
    ensures Buckets.Sum(Counts(Series(filtered, stepBack, parse)))
         >= 2 * Buckets.CountHits(filtered, DayHit(parse), stepBack(a))
  {
    var r := Series(filtered, stepBack, parse);
    var c := Counts(r);
    assert c[29 - b] == r[29 - b].count && c[29 - a] == r[29 - a].count;
    Buckets.SumAtLeastTwo(c, 29 - b, 29 - a);
  }

  // ---------------------------------------------------------------- the route

  datatype Summary = Summary(totalPrescriptions: nat, uniquePatients: nat, topClinics: seq<Entry<string>>,
                             series: seq<DayPoint>)

  /** The figures computed from the filtered records. */
  function Summarize(filtered: seq<Prescription>, stepBack: int -> int, parse: Instants.Parser): (r: Summary)
    ensures r.totalPrescriptions == |filtered|
    ensures r.uniquePatients <= 2 * r.totalPrescriptions
    ensures |r.topClinics| <= 10 && Total(r.topClinics) <= r.totalPrescriptions
    ensures |r.series| == 30
    ensures r.uniquePatients == |PatientIds(filtered)|
    ensures r.topClinics == TopClinics(filtered)
    ensures r.series == Series(filtered, stepBack, parse)
  {
    PatientIdsBound(filtered);
    Summary(|filtered|, |PatientIds(filtered)|, TopClinics(filtered), Series(filtered, stepBack, parse))
  }

  /**
   * With thirty distinct day keys, the series counts each record at most once
   * and the ten clinics shown hold at most the kept records.
   */
  lemma {:induction false} SummaryTotals(filtered: seq<Prescription>, stepBack: int -> int, parse: Instants.Parser)
    requires Buckets.Distinct(DayKeys(stepBack))
    ensures var r := Summarize(filtered, stepBack, parse);
            && Buckets.Sum(Counts(r.series)) == Buckets.CountAny(filtered, DayHit(parse), DayKeys(stepBack))
            && Buckets.Sum(Counts(r.series)) <= r.totalPrescriptions
            && Total(r.topClinics) <= r.totalPrescriptions
  {
    SeriesTotal(filtered, stepBack, parse);
  }

  /** The record's upload date is there but does not parse. */
  predicate InvalidDated(p: Prescription, parse: Instants.Parser) {
    UploadedAt(p, parse) == Some(Instants.Invalid)
  }

  /** Some record that passed the filter has an invalid upload date. */
  predicate HasInvalidDate(filtered: seq<Prescription>, parse: Instants.Parser) {
    exists i :: 0 <= i < |filtered| && InvalidDated(filtered[i], parse)
  }

  /**
   * The route as written: a record whose date does not parse passes the
   * range filter, and then `toISOString` throws on it, so the whole request
   * fails.
   */
  function SummaryAsWritten(ps: seq<Prescription>, from: Option<string>, to: Option<string>, stepBack: int -> int,
                            parse: Instants.Parser): (r: Result<Summary>)
    ensures var f := Filter(ps, KeepAsWritten(Bound(from, parse), Bound(to, parse), parse));
            && (r.Failure? <==> HasInvalidDate(f, parse))
            && (r.Failure? ==> r.message == "Failed to compute summary")
            && (r.Success? ==> r.value == Summarize(f, stepBack, parse))
  {
    var f := Filter(ps, KeepAsWritten(Bound(from, parse), Bound(to, parse), parse));
    if HasInvalidDate(f, parse) then Failure("Failed to compute summary") else Success(Summarize(f, stepBack, parse))
  }

  /** The summary with records whose date does not parse left out, as records without a date are. */
  function SummaryRoute(ps: seq<Prescription>, from: Option<string>, to: Option<string>, stepBack: int -> int,
                        parse: Instants.Parser): (r: Summary)
    ensures !HasInvalidDate(Filter(ps, Keep(Bound(from, parse), Bound(to, parse), parse)), parse)
    ensures r.totalPrescriptions <= |ps|
  {
    var f := Filter(ps, Keep(Bound(from, parse), Bound(to, parse), parse));
    Summarize(f, stepBack, parse)
  }

  /** A record with an unparseable creation date and no upload time makes the route fail. */
  lemma UnparseableDateFails(id: string, created: string, stepBack: int -> int, parse: Instants.Parser)
    requires created != "" && parse(created) == Instants.Invalid
    ensures var p := BareRecord(id).(createdAt := Some(created));
            SummaryAsWritten([p], None, None, stepBack, parse) == Failure("Failed to compute summary")
            && SummaryRoute([p], None, None, stepBack, parse).totalPrescriptions == 0
  {
    var p := BareRecord(id).(createdAt := Some(created));
    assert InvalidDated(p, parse);
    InvalidAlone(p, parse);
  }

  /** Alone, a record with an invalid date passes the route's filter and not the corrected one. */
  lemma InvalidAlone(p: Prescription, parse: Instants.Parser)
    requires InvalidDated(p, parse)
    ensures Filter([p], KeepAsWritten(None, None, parse)) == [p]
    ensures Filter([p], Keep(None, None, parse)) == []
  {
    assert [p][..0] == [];
    assert KeepAsWritten(None, None, parse)(p);
    assert !Keep(None, None, parse)(p);
  }

  /** When every kept record has a valid date, the corrected route gives the route's figures. */
  lemma {:induction false} SummaryAgrees(ps: seq<Prescription>, from: Option<string>, to: Option<string>, stepBack: int -> int,
                      parse: Instants.Parser)
    requires !HasInvalidDate(Filter(ps, KeepAsWritten(Bound(from, parse), Bound(to, parse), parse)), parse)
    ensures SummaryAsWritten(ps, from, to, stepBack, parse) == Success(SummaryRoute(ps, from, to, stepBack, parse))
  {
    FilterAgrees(ps, Bound(from, parse), Bound(to, parse), parse);
  }

  /** Without invalid dates among the kept records, dropping them changes nothing. */
  lemma {:induction false} FilterAgrees(ps: seq<Prescription>, lo: Option<Instants.Instant>,
                                        hi: Option<Instants.Instant>, parse: Instants.Parser)
    requires !HasInvalidDate(Filter(ps, KeepAsWritten(lo, hi, parse)), parse)
    ensures Filter(ps, KeepAsWritten(lo, hi, parse)) == Filter(ps, Keep(lo, hi, parse))
    decreases |ps|
  {
    if |ps| > 0 {
      var pre := ps[..|ps| - 1];
      var x := ps[|ps| - 1];
      var fw := Filter(pre, KeepAsWritten(lo, hi, parse));
      var full := Filter(ps, KeepAsWritten(lo, hi, parse));
      assert full == if KeptAsWritten(x, lo, hi, parse) then fw + [x] else fw;
      assert !HasInvalidDate(fw, parse) by {
        forall i | 0 <= i < |fw| ensures !InvalidDated(fw[i], parse) {
          assert fw[i] == full[i];
        }
      }
      FilterAgrees(pre, lo, hi, parse);
      if KeptAsWritten(x, lo, hi, parse) {
        assert full[|full| - 1] == x;
        assert !InvalidDated(full[|full| - 1], parse);
        KeptUnlessInvalid(x, lo, hi, parse);
      }
      assert Filter(ps, Keep(lo, hi, parse))
          == if Kept(x, lo, hi, parse) then Filter(pre, Keep(lo, hi, parse)) + [x] else Filter(pre, Keep(lo, hi, parse));
    }
  }

  lemma KeptUnlessInvalid(p: Prescription, lo: Option<Instants.Instant>, hi: Option<Instants.Instant>,
                          parse: Instants.Parser)
    requires KeptAsWritten(p, lo, hi, parse) && !InvalidDated(p, parse)
    ensures Kept(p, lo, hi, parse)
  {
  }
}

# HealthSync aggregation and normalisation, modelled in Dafny

HealthSync stores prescriptions in Firestore. Each prescription is an OCR extraction, a voice prescription or a record entered by hand. Around this storage sit statistics routes, a health-summary route and a few dashboard components. The storage, the AI calls and the React rendering are not modelled. What remains is a set of pure functions over loosely typed documents, and this project models them:

- which of several alternative keys a field is read from;
- counting under normalised keys, ranking and truncating;
- rounded percentages and averages;
- zero-filled monthly and daily time series;
- distinct-patient counts;
- reading the first number out of free-text lab values;
- merging the two queries of the health summary;
- the medication and symptom textareas of the voice editor, with its edit/cancel/save state;
- the medication-count fallbacks of the patient dashboard and the patient detail view;
- the doctor search;
- the redirect table of the auth guard;
- the colour classes of the prescription display;
- the plain-text prescription.

Documents are schemaless, so every field of `Records.Prescription` is an `Option`. `None` stands for absent, `null` or `undefined`. JavaScript truthiness is spelled out:

- a string field is truthy when it is present and non-empty (`JsText.Truthy`);
- an array field is truthy whenever it is present, even when empty, so an empty array stops an `||` chain (`Records.FirstList`);
- `uploadedAt.seconds` is truthy when it is present and non-zero.

Numbers are exact. Counts are `nat`. A percentage is rounded half up with integer division. The average number of prescriptions per patient is kept in tenths. Lab values, means and confidences are `real`.

A lab value is read as the token the pattern `-?\d+(\.\d+)?` matched: its sign, its integer digits and its fraction digits.

The clock, the calendar and date parsing are parameters:

- `Instants.Parser` stands for `new Date(text)`;
- `Analytics.Calendar` gives the local midnights the analytics route builds with `new Date(y, m, 1)` and `new Date(y, m + 1, 0)`;
- `stepBack(k)` is the UTC day number of the present moment moved back `k` local calendar days with `setDate`, as the summary series computes its day keys; across a change of the local offset two keys can coincide or a day can be skipped, and `StatsSummary.RepeatedDayCountsTwice` shows what a repeated key does;
- `monthAgo` is an instant computed by the caller.

Modules follow the source:

- `Records`: the documents.
- `Wrappers`, `Seqs`, `Ranking`, `Buckets`, `JsText`, `Instants`: shared folds and JavaScript built-ins.
- `Analytics`: `app/api/analytics/route.ts`.
- `StatsSummary`, `LabStats`, `MedicationStats`: the three routes under `app/api/stats/`.
- `HealthSummary`: `app/api/health-summary/route.ts`.
- `VoicePrescription`, `PatientDashboard`, `PatientDetailView`, `DoctorSearch`, `AuthGuard`, `PrescriptionDisplay`: the components of the same names.
- `PdfText`: `lib/pdf-generator.ts`.

## Model

| member | source | states |
|---|---|---|
| Records.FirstList | app/api/analytics/route.ts:38-39 | `a \|\| b` on array fields: a present list wins even when it is empty, and only an absent one falls through |
| Records.UploadInstant | components/patient-dashboard.tsx:113 | `new Date(uploadedAt.seconds * 1000 \|\| createdAt)`: the upload time when its seconds are truthy, else the parsed creation date, else the invalid date |
| Instants.FromMillis | app/api/stats/summary/route.ts:28 | `new Date(ms)` is a valid date holding `ms` exactly when `ms` is within 8.64e15 of the epoch |
| Instants.FromText | app/api/analytics/route.ts:119-121 | `new Date(x)` for a possibly undefined string: undefined gives the invalid date, a string whatever the parser reads |
| Instants.DayNumberRange | app/api/stats/summary/route.ts:75 | the day key names a record's UTC day: the day number is `d` exactly when the time lies in the 24 hours of day `d` |
| JsText.Lower | app/api/analytics/route.ts:45 | `toLowerCase` keeps the length and maps each character to its lower-case form |
| JsText.LowerIdempotent | app/api/analytics/route.ts:45 | lower-casing an already lower-cased key changes nothing |
| JsText.Capitalize | app/api/analytics/route.ts:60 | the display name is the key with only its first character upper-cased, the rest unchanged |
| JsText.Trim | app/api/analytics/route.ts:45 | `trim` yields a contiguous piece of the text with only white space around it, and white space at neither end |
| JsText.Or | app/api/analytics/route.ts:158 | `s \|\| fallback`: the string itself when truthy, the fallback otherwise |
| JsText.OrElse | app/api/analytics/route.ts:178 | `a \|\| b` on possibly absent strings: `a` when truthy, otherwise `b` exactly as it is, absent or empty included |
| JsText.Split | components/voice-prescription.tsx:274 | `split` with a non-empty separator never returns an empty list |
| JsText.JoinSplit | components/voice-prescription.tsx:256-258 | joining the parts of a split with the same separator gives back the text |
| JsText.SplitJoin | components/voice-prescription.tsx:268-276 | splitting a joined list gives back the list when one character of the separator occurs in no part |
| JsText.SplitFromCount | components/voice-prescription.tsx:274 | splitting on one character gives one part more than the character's occurrences |
| JsText.NatToStringValue | lib/pdf-generator.ts:64 | the decimal text of a number reads back as that number |
| JsText.ArrayIndexInjective | app/api/stats/medications/route.ts:58 | two array-index keys with the same value are the same key, so `Object.entries` orders them by value |
| Seqs.FilterMultiset | components/doctor-search.tsx:76-81 | `filter` keeps every copy of an element that passes and no copy of one that fails |
| Seqs.Filter | components/patient-dashboard.tsx:60 | `filter` keeps, in order, exactly the elements that pass the test |
| Seqs.FilterConcat | app/api/stats/medications/route.ts:35 | filtering a concatenation filters each part |
| Seqs.CountComplement | components/patient-dashboard.tsx:119 | the elements that pass a test and those that fail it make up the list |
| Seqs.FirstWith | app/api/health-summary/route.ts:44 | `findIndex` by key finds an element exactly when some element has that key, and the element it finds has it |
| Seqs.DedupBy | app/api/health-summary/route.ts:42-45 | the `i === findIndex` filter gives an ordered subsequence with distinct keys, covering every input key, each element being the first with its key |
| Seqs.DedupByOrder | app/api/health-summary/route.ts:42-45 | the kept elements come in the order in which their keys first appear in the input |
| Seqs.FirstIndex | app/api/health-summary/route.ts:44 | `findIndex` by key: the position of the first element with the key, no earlier element having it; the length when none has it |
| Seqs.DedupIdempotent | app/api/health-summary/route.ts:42-45 | deduplicating twice is deduplicating once |
| Seqs.DedupDistinct | app/api/health-summary/route.ts:42-45 | a list whose keys are already distinct comes through unchanged |
| Seqs.DedupPrefix | app/api/health-summary/route.ts:41-45 | appending elements never changes what was kept from the front part |
| Seqs.DedupHasKey | app/api/health-summary/route.ts:42-45 | a key survives deduplication exactly when it occurred |
| Ranking.Bump | app/api/analytics/route.ts:46-49 | `map.set(k, (map.get(k) \|\| 0) + 1)` appends a new key at the end and keeps the key order otherwise |
| Ranking.BumpCount | app/api/analytics/route.ts:46-49 | one increment adds one to the bumped key and nothing to any other |
| Ranking.Tally | app/api/analytics/route.ts:36-51 | every entry of a counting map has a positive count |
| Ranking.TallyKeys | app/api/analytics/route.ts:36-51 | the keys of the map are the distinct keys of the list, in order of first appearance |
| Ranking.TallyTotal | app/api/analytics/route.ts:53-56 | the counts add up to the number of keys counted |
| Ranking.TallyCounts | app/api/analytics/route.ts:46-49 | each key is counted exactly as often as it occurs |
| Ranking.TallyDistinct | app/api/analytics/route.ts:36 | a counting map never holds a key twice |
| Ranking.SortDesc | app/api/analytics/route.ts:67 | `sort((a, b) => b.count - a.count)` returns a permutation in non-increasing order |
| Ranking.SortStable | app/api/analytics/route.ts:67 | the sort is stable: entries with the same count keep their input order |
| Ranking.SumOfPermutation | app/api/analytics/route.ts:162-167 | sorting does not change the sum of the counts |
| Ranking.Take | app/api/analytics/route.ts:68 | `slice(0, n)` is the first `min(n, length)` elements |
| Ranking.TopN | app/api/analytics/route.ts:67-68 | sort then slice: at most `n` elements, non-increasing, drawn from the input |
| Ranking.TopNExcluded | app/api/analytics/route.ts:67-68 | an element left out is ranked no higher than every element kept, and then `n` elements are kept |
| Ranking.TopNStable | app/api/analytics/route.ts:67-68 | the kept elements of any one count are the first elements of that count in the input, in order |
| Ranking.TopNSum | app/api/stats/summary/route.ts:58-61 | the counts of the kept entries add up to no more than all counts |
| Ranking.ObjectOrder | app/api/stats/medications/route.ts:58 | `Object.entries` of a counting object: the same entries, array-index keys first in ascending value, the other keys in creation order |
| Ranking.ObjectOrderTotal | app/api/stats/medications/route.ts:58 | property order does not change the total |
| Ranking.RenameKeys | app/api/analytics/route.ts:90-94 | renaming keys for display keeps every count and its position |
| Buckets.Histogram | app/api/analytics/route.ts:104-141 | a zero-filled series of `n` consecutive buckets, each holding the number of records that hit it |
| Buckets.HistogramSum | app/api/analytics/route.ts:104-141 | when no record hits two buckets, the buckets add up to the number of records that hit the window |
| Buckets.KeyHistogram | app/api/stats/summary/route.ts:79-86 | one count per listed key, in the order listed, each the number of records that hit that key; a key listed twice is counted twice |
| Buckets.KeyHistogramSum | app/api/stats/summary/route.ts:69-86 | when no record hits two buckets and no key is listed twice, the listed counts add up to the number of records that hit any listed key |
| Buckets.CountAnyStep | app/api/stats/summary/route.ts:69-86 | listing one more, new key adds exactly that key's count to the records hit |
| Buckets.CountHitsMonotone | app/api/analytics/route.ts:136-140 | a narrower test never counts more records |
| Buckets.CountHitsConcat | app/api/analytics/route.ts:118-141 | the count over two record lists is the sum of their counts |
| Analytics.Percent | app/api/analytics/route.ts:62-65 | `Math.round(count / total * 100)` is the nearest integer, halves rounded up, 0 without a total, at most 100 for a share |
| Analytics.AverageTenths | app/api/analytics/route.ts:173-176 | the average per patient to the nearest tenth, halves up, 0 without patients |
| Analytics.RoundedAverageUnique | app/api/analytics/route.ts:173-176 | only one number of tenths is the rounded average, so the average shown is fixed by that rounding rule |
| Analytics.SymptomLabel | app/api/analytics/route.ts:41-44 | a string symptom is its own name; an object uses `text`, else `name`, else "Unknown" |
| Analytics.SymptomKeysLength | app/api/analytics/route.ts:37-51 | one key per symptom entry of the list taken from `extractedData.symptoms`, else `symptoms` |
| Analytics.SymptomCountsTotal | app/api/analytics/route.ts:36-56 | the symptom counts add up to the number of symptom entries |
| Analytics.SymptomCountsStep | app/api/analytics/route.ts:37-51 | each further record adds one to the key of each of its symptom entries and nothing else |
| Analytics.SymptomsData | app/api/analytics/route.ts:58-68 | at most ten rows, non-increasing counts, percentages at most 100, every row taken from the table of all symptoms |
| Analytics.SymptomRowMeaning | app/api/analytics/route.ts:45-66 | each row is a capitalised key, the number of entries normalising to it, and that number's share of all entries |
| Analytics.SymptomRowsAreTop | app/api/analytics/route.ts:67-68 | a symptom left off the chart is no more frequent than any symptom shown, and ten are shown |
| Analytics.SymptomRowsStable | app/api/analytics/route.ts:58-68 | rows with equal counts keep the order in which their symptoms were first seen |
| Analytics.PercentagesNeedNotAddUp | app/api/analytics/route.ts:62-65 | rounded shares need not total 100: seven symptoms seen once each give 7 × 14 = 98 |
| Analytics.MedicationsOf | app/api/analytics/route.ts:75-79 | the list is `extractedData.medications`, else `extractedData.prescriptions`, else `medications`, else none, never merged |
| Analytics.MedicationLabel | app/api/analytics/route.ts:81 | `name`, else `medication`, else "Unknown"; a bare string entry has neither property |
| Analytics.MedicationKeysLength | app/api/analytics/route.ts:74-88 | one key per medication entry |
| Analytics.MedicationsData | app/api/analytics/route.ts:90-96 | the first fifteen of the capitalised counts, or all of them when fewer, most frequent first, drawn from the counts, totalling at most the number of entries |
| Analytics.MedicationsAreTop | app/api/analytics/route.ts:90-96 | a medication left out is taken by no more records than each of the fifteen shown |
| Analytics.MedicationsStable | app/api/analytics/route.ts:90-96 | medications with equal counts are shown in the order they were first seen, as the stable sort leaves them |
| Analytics.MedicationCountsExact | app/api/analytics/route.ts:80-87 | each medication entry adds exactly one to the count of its normalised key |
| Analytics.FeverTrendAsWritten | app/api/analytics/route.ts:104-151 | twelve buckets, oldest first, the last the current month, each at most the number of records, using the route's month-end test |
| Analytics.FeverTrend | app/api/analytics/route.ts:100-151 | the same twelve buckets with the whole month counted |
| Analytics.FeverExclusive | app/api/analytics/route.ts:115-140 | a record falls in at most one month |
| Analytics.FeverTrendTotal | app/api/analytics/route.ts:100-151 | the twelve buckets together count each fever record dated in the window exactly once |
| Analytics.FeverAsWrittenUndercounts | app/api/analytics/route.ts:136-140 | the route's month test never counts more than the whole-month test |
| Analytics.FeverMonthEndMissed | app/api/analytics/route.ts:116-140 | a fever record one millisecond after midnight on a month's last day is in no bucket of the route, but in its month of the whole-month trend |
| Analytics.ClinicOf | app/api/analytics/route.ts:158 | `clinic`, else `hospital`, else "General Clinic" |
| Analytics.ClinicsData | app/api/analytics/route.ts:156-167 | every clinic with its doctors, most doctors first, counts totalling the number of doctors, not truncated |
| Analytics.ActivePatientsDistinct | app/api/analytics/route.ts:177-179 | the set size is the number of distinct `patientId \|\| userId` keys, at most the number of records, positive for any record |
| Analytics.PatientsAndDoctors | app/api/analytics/route.ts:16-17 | no user is both a patient and a doctor |
| Analytics.MakeOverview | app/api/analytics/route.ts:172-188 | patients and doctors counted by role, all prescriptions, active patients as the number of distinct `patientId \|\| userId` keys (never more than the prescriptions, positive when any exist), and the average per patient rounded to a tenth, 0 without patients |
| Analytics.OverviewActiveKeys | app/api/analytics/route.ts:177-179 | a key is among the active patients exactly when some prescription carries it as `patientId \|\| userId` |
| Analytics.AnalyticsReportAsWritten | app/api/analytics/route.ts:181-193 | the response as written: the overview, the top symptoms, the top medications and the clinics, with the fever trend counted by the route's month-end test (`FeverTrendAsWritten`); it differs from the corrected response only in the fever trend |
| Analytics.AnalyticsReport | app/api/analytics/route.ts:181-193 | the corrected response: the same overview and lists, with the fever trend counting whole months (`FeverTrend`) |
| Analytics.ReportFeverTotal | app/api/analytics/route.ts:100-193 | the corrected response's fever trend counts every fever record of the twelve months exactly once |
| Analytics.ReportFeverUndercounts | app/api/analytics/route.ts:136-140 | month by month, the response as written shows no more fever patients than the corrected one |
| StatsSummary.UploadedAt | app/api/stats/summary/route.ts:25-32 | `uploadedAt.seconds * 1000` when the seconds are truthy, else the parsed `createdAt` when truthy; none exactly when neither |
| StatsSummary.Bound | app/api/stats/summary/route.ts:22-23 | an empty or missing parameter sets no bound |
| StatsSummary.RangeInclusive | app/api/stats/summary/route.ts:33-34 | both ends of the range are inclusive, and one millisecond outside either end is excluded |
| StatsSummary.InvalidBoundIgnored | app/api/stats/summary/route.ts:33-34 | comparisons with an invalid date are false, so an unparseable bound excludes nothing |
| StatsSummary.RecordIds | app/api/stats/summary/route.ts:43-44 | a record adds its truthy `userId` and its truthy `patientId` |
| StatsSummary.PatientIdsMembers | app/api/stats/summary/route.ts:41-47 | an id is counted exactly when some kept record names it as user or patient |
| StatsSummary.PatientIdsBound | app/api/stats/summary/route.ts:41-47 | each record contributes at most two ids |
| StatsSummary.ClinicKeys | app/api/stats/summary/route.ts:51-56 | only records with a truthy `doctorInfo.clinic` are counted |
| StatsSummary.TopClinics | app/api/stats/summary/route.ts:50-61 | the first ten of the clinic counts in property order, or all of them when fewer, most records first, drawn from the clinic counts, totalling at most the kept records |
| StatsSummary.TopClinicsAreTop | app/api/stats/summary/route.ts:58-61 | a clinic left out has no more records than each of the ten shown |
| StatsSummary.TopClinicsStable | app/api/stats/summary/route.ts:58-61 | clinics with equal counts are shown in the counting object's property order |
| StatsSummary.ClinicCountsExact | app/api/stats/summary/route.ts:51-56 | each record naming a clinic adds exactly one to that clinic |
| StatsSummary.Series | app/api/stats/summary/route.ts:79-86 | thirty points, oldest first: point `i` is keyed by the UTC day reached by stepping the local date back `29 - i` days, and holds the number of kept records uploaded on that UTC day, zero otherwise |
| StatsSummary.SeriesTotal | app/api/stats/summary/route.ts:69-86 | when the thirty keys are different UTC days, the series counts each record uploaded on one of them once, so it adds up to at most the total |
| StatsSummary.SeriesSteadyZone | app/api/stats/summary/route.ts:64-86 | where the local offset never changes, the keys are the thirty consecutive UTC days ending today and the series adds up to the records of that window |
| StatsSummary.RepeatedDayCountsTwice | app/api/stats/summary/route.ts:79-86 | a UTC day reached by two steps appears twice, and its records count twice in the series' sum |
| StatsSummary.Summarize | app/api/stats/summary/route.ts:38-93 | the kept records; unique patients as the size of the id set (at most twice the records); the top ten clinics; the thirty-day series |
| StatsSummary.SummaryTotals | app/api/stats/summary/route.ts:50-93 | with thirty distinct day keys the series adds up to the records uploaded on one of those days, at most the kept records, and the clinics shown hold at most the kept records |
| StatsSummary.SummaryAsWritten | app/api/stats/summary/route.ts:25-99 | the route fails with "Failed to compute summary" exactly when a kept record's date does not parse |
| StatsSummary.SummaryRoute | app/api/stats/summary/route.ts:25-36 | the corrected route keeps no record with an unparseable date and never counts more records than it was given |
| StatsSummary.UnparseableDateFails | app/api/stats/summary/route.ts:29-75 | one record with an unparseable `createdAt` and no upload time makes the whole route fail |
| StatsSummary.SummaryAgrees | app/api/stats/summary/route.ts:25-93 | when every kept record's date parses, the corrected route gives the route's figures |
| StatsSummary.FilterAgrees | app/api/stats/summary/route.ts:25-36 | without unparseable dates among the kept records, dropping them changes nothing |
| StatsSummary.KeptUnlessInvalid | app/api/stats/summary/route.ts:25-36 | a record the route keeps, with a date that parses, is kept by the corrected filter |
| LabStats.Clean | app/api/stats/labs/route.ts:17-19 | cleaning maps each character on its own and keeps the length |
| LabStats.CleanFacts | app/api/stats/labs/route.ts:17-19 | commas become points, digits, points and minus signs stay, everything else becomes a space |
| LabStats.DigitRun | app/api/stats/labs/route.ts:20 | `\d+` at a position matches the longest run of digits there |
| LabStats.ReadAtReads | app/api/stats/labs/route.ts:20 | the greedy match at a start: a well-formed token whose text is found there, not followed by a digit, with a fraction taken whenever `.` and a digit follow |
| LabStats.ReadRendered | app/api/stats/labs/route.ts:20 | reading at the start of a token's text, when nothing continues it, gives back that token: the inverse of rendering |
| LabStats.FractionFrom | app/api/stats/labs/route.ts:20 | the optional group `(\.\d+)` is taken, greedily, exactly when a point and a digit follow |
| LabStats.FirstStart | app/api/stats/labs/route.ts:20 | the leftmost position where a match can begin |
| LabStats.Match | app/api/stats/labs/route.ts:20-21 | nothing exactly when no match can begin anywhere, otherwise a token matched at a position where no earlier match begins |
| LabStats.ParseFirstNumber | app/api/stats/labs/route.ts:15-22 | null for an empty value, otherwise the first match in the cleaned text |
| LabStats.ParseRendered | app/api/stats/labs/route.ts:15-22 | a number written in running text, with no digit or minus sign before it and nothing that continues it after, is read back exactly |
| LabStats.DecimalComma | app/api/stats/labs/route.ts:18 | a decimal comma reads as a decimal point |
| LabStats.ParseBloodPressure | app/api/stats/labs/route.ts:15-22 | "120/80 mmHg" reads as 120 |
| LabStats.ParseNotAvailable | app/api/stats/labs/route.ts:20-21 | "N/A" reads as no number |
| LabStats.ParseCommaExample | app/api/stats/labs/route.ts:17-21 | "1,234" reads as one and 234 thousandths |
| LabStats.ExampleValues | app/api/stats/labs/route.ts:21 | `parseFloat` of the example tokens gives 120 and 1.234 |
| LabStats.Reading | app/api/stats/labs/route.ts:50-51 | a value contributes exactly when a number can be read from it, and then that number |
| LabStats.ReadingOf | app/api/stats/labs/route.ts:15-22 | a value that is exactly a number's text reads as that number's value |
| LabStats.FieldValues | app/api/stats/labs/route.ts:47-54 | a record adds at most one number per field to a lab |
| LabStats.FieldValuesCount | app/api/stats/labs/route.ts:47-54 | a lab receives one number for each field whose key names it and whose value holds a number |
| LabStats.FieldValuesMembers | app/api/stats/labs/route.ts:47-54 | each number filed under a lab comes from a field that feeds it, and every such number is filed |
| LabStats.LabValuesConcat | app/api/stats/labs/route.ts:45-56 | the values of two record lists are those of each, in query order |
| LabStats.SharedKey | app/api/stats/labs/route.ts:48-53 | one field whose key names two labs feeds both |
| LabStats.Summarize | app/api/stats/labs/route.ts:60-65 | the count of values, a mean over all of them that is null exactly without values, and the first hundred values as samples |
| LabStats.MeanBetween | app/api/stats/labs/route.ts:63 | the mean lies within the range of the values it averages |
| LabStats.LabsReport | app/api/stats/labs/route.ts:26-65 | every configured lab is reported, in order, with the number of values filed under it |
| LabStats.SummarizeMeets | app/api/stats/labs/route.ts:60-65 | a summary holds the lab, the count, a mean that is null exactly without values and otherwise times the count gives their sum, and the first hundred values |
| LabStats.LabsReportEntry | app/api/stats/labs/route.ts:26-65 | the entry of each configured lab summarises exactly the values collected for it: count, mean and first hundred samples |
| LabStats.EmptyReport | app/api/stats/labs/route.ts:41-65 | without records each of HbA1c, Hemoglobin and Cholesterol is reported with count 0, mean null and no samples |
| MedicationStats.TrimmedIfTruthy | app/api/stats/medications/route.ts:14 | a name is taken, trimmed, exactly when the field is truthy |
| MedicationStats.FromPrescriptions | app/api/stats/medications/route.ts:12-17 | an OCR entry gives `medication`, else `name`; a bare string gives nothing |
| MedicationStats.FromMedications | app/api/stats/medications/route.ts:20-25 | a voice entry gives `name`, else `medication`; a bare string gives nothing |
| MedicationStats.FromTopLevel | app/api/stats/medications/route.ts:28-33 | a top-level string entry is used trimmed; an object by `name` only |
| MedicationStats.PicksOfCount | app/api/stats/medications/route.ts:12-33 | exactly the entries in which a name is found contribute one name each |
| MedicationStats.DocNames | app/api/stats/medications/route.ts:6-36 | no empty names, and at most one name per entry of the three lists |
| MedicationStats.DocNamesAccumulate | app/api/stats/medications/route.ts:6-36 | the three lists accumulate, OCR entries first, then voice entries, then top-level entries |
| MedicationStats.BothListsCount | app/api/stats/medications/route.ts:12-25 | a record with one OCR entry and one voice entry contributes both names |
| MedicationStats.BlankNameDropped | app/api/stats/medications/route.ts:30-35 | a name of spaces is taken, trimmed to nothing and dropped |
| MedicationStats.Counts | app/api/stats/medications/route.ts:47-56 | the counts, in property order, total the number of names |
| MedicationStats.CountsExact | app/api/stats/medications/route.ts:51-55 | each lower-cased key is counted once per name that lower-cases to it |
| MedicationStats.AllKeysConcat | app/api/stats/medications/route.ts:49-56 | the names of two record lists are those of each, in order |
| MedicationStats.Rank | app/api/stats/medications/route.ts:58-60 | at most fifty entries, highest count first, drawn from the counts |
| MedicationStats.RankOmitsOnlyLess | app/api/stats/medications/route.ts:58-60 | an entry left out is no more frequent than any entry kept, and fifty are kept |
| MedicationStats.Report | app/api/stats/medications/route.ts:58-63 | the response: at most fifty entries under their lower-case keys, highest first, totalling at most the names |
| HealthSummary.Merge | app/api/health-summary/route.ts:41-45 | the `patientId` results then the `userId` results, as an ordered subsequence with distinct ids, keeping every id and the first record with each |
| HealthSummary.MergeOrder | app/api/health-summary/route.ts:41-45 | the merged records come in the order of their ids' first positions in the `patientId` results followed by the `userId` results |
| HealthSummary.MergeIdempotent | app/api/health-summary/route.ts:42-45 | deduplicating the merged list again changes nothing |
| HealthSummary.MergeKeepsPatientResults | app/api/health-summary/route.ts:41-45 | `patientId` results with distinct ids come first, unchanged and in order |
| HealthSummary.BothQueriesOnce | app/api/health-summary/route.ts:41-45 | a record found by both queries is kept once |
| HealthSummary.MergeIds | app/api/health-summary/route.ts:41-45 | an id is shown to the model exactly when either query found it |
| HealthSummary.Entry | app/api/health-summary/route.ts:55-74 | the date, doctor, symptom, diagnosis, medication and notes fallbacks of one record |
| HealthSummary.VoiceMedicationsUnused | app/api/health-summary/route.ts:69-72 | the voice model's `extractedData.medications` never reach the summary |
| HealthSummary.EmptyTopLevelWins | app/api/health-summary/route.ts:65-66 | an empty top-level list still wins over the extracted one |
| HealthSummary.Medical | app/api/health-summary/route.ts:55 | one entry per record, in order |
| HealthSummary.Summarize | app/api/health-summary/route.ts:9-74 | 400 "User ID is required" without an id; with an id, the fixed text exactly when both queries are empty, and otherwise always a request to the model with the merged records' entries |
| VoicePrescription.Process | components/voice-prescription.tsx:41-70 | the blank-transcript alert first, then the no-patient alert, otherwise a request with the trimmed transcript, the doctor fallbacks and the Patient Information card as it stands |
| VoicePrescription.InitialPatientInfo | components/voice-prescription.tsx:32-36 | the card starts with the display name of the patient selected at first render, or "", and empty age and gender |
| VoicePrescription.EditPatientInfo | components/voice-prescription.tsx:343-365 | typing in one of the three inputs sets that field and keeps the others |
| VoicePrescription.StalePatientName | components/voice-prescription.tsx:32-66 | unless the card is edited, the request names the patient selected at first render, whichever patient is selected now |
| VoicePrescription.NoPatientAtMount | components/voice-prescription.tsx:32-66 | without a patient at first render the request's name is empty until typed, and then it is the typed text |
| VoicePrescription.LineFields | components/voice-prescription.tsx:270 | a line has four fields |
| VoicePrescription.PartOr | components/voice-prescription.tsx:278-281 | `parts[i] \|\| ""`: the part when there is one, else the empty string |
| VoicePrescription.ParseLine | components/voice-prescription.tsx:275-283 | a line becomes an object with exactly name, dosage, frequency and duration |
| VoicePrescription.ParseMedications | components/voice-prescription.tsx:273-284 | one medication per line, each read from its line |
| VoicePrescription.ParseCount | components/voice-prescription.tsx:274-275 | the number of medications is the number of line breaks plus one |
| VoicePrescription.EmptyTextOneBlank | components/voice-prescription.tsx:274-283 | clearing the textarea leaves one medication with all fields empty |
| VoicePrescription.ParseLineParts | components/voice-prescription.tsx:276-282 | parts 0 to 3 fill the fields, missing parts are empty, further parts are dropped |
| VoicePrescription.LineRoundTrip | components/voice-prescription.tsx:270-282 | a medication with dash-free fields is written as one line and read back unchanged |
| VoicePrescription.MedicationsRoundTrip | components/voice-prescription.tsx:268-287 | showing a non-empty list of such medications and reading the text back gives the same list |
| VoicePrescription.EmptyListNotRestored | components/voice-prescription.tsx:268-283 | an empty list is shown as "" and reads back as one blank medication |
| VoicePrescription.VoiceFieldsShowUndefined | components/voice-prescription.tsx:270 | the voice model's `dose` and `timing` are not shown: the text reads `undefined`, and saving stores that word |
| VoicePrescription.ParseSymptoms | components/voice-prescription.tsx:258 | one string symptom per line, never none |
| VoicePrescription.SymptomsRoundTrip | components/voice-prescription.tsx:256-258 | string symptoms without line breaks survive the textarea |
| VoicePrescription.EmptySymptomsBecomeOne | components/voice-prescription.tsx:256-258 | editing an empty symptom list stores one empty symptom |
| VoicePrescription.ObjectSymptomsLost | components/voice-prescription.tsx:256-258 | a symptom object comes back as the text `[object Object]` |
| VoicePrescription.Step | components/voice-prescription.tsx:89-309 | Cancel restores the generated prescription, Save stores the edited one, both keeping the transcript, Create New and approval reset everything, typing in any of the four textareas changes only the edited copy |
| VoicePrescription.Typed | components/voice-prescription.tsx:256-309 | an edit in a textarea changes only that textarea's field; the instructions and notes textareas then show exactly the text typed |
| VoicePrescription.StepConsistent | components/voice-prescription.tsx:89-162 | every event keeps the state consistent: editing only with a generated prescription, and outside editing the edited copy is the generated one |
| VoicePrescription.RunConsistent | components/voice-prescription.tsx:89-162 | every reachable state is consistent |
| VoicePrescription.ApprovesWhatIsShown | components/voice-prescription.tsx:183-205 | outside editing, the prescription approved is the one on display |
| VoicePrescription.TypingKeeps | components/voice-prescription.tsx:256-309 | typing while editing keeps the generated prescription and stays in editing |
| VoicePrescription.CancelDiscards | components/voice-prescription.tsx:89-96 | Edit, any typing, then Cancel gives back the generated prescription |
| VoicePrescription.SaveKeeps | components/voice-prescription.tsx:89-101 | Edit, any typing, then Save makes the typed prescription the generated one |
| VoicePrescription.RunAppend | components/voice-prescription.tsx:177-223 | running two event lists is running the second from where the first ended |
| PatientDashboard.MedicationCount | components/patient-dashboard.tsx:67-78 | the length of the first non-empty list of the three, and 0 exactly when all are absent or empty |
| PatientDashboard.EmptyListSkipped | components/patient-dashboard.tsx:68-73 | an empty list does not stop the search |
| PatientDashboard.Stats | components/patient-dashboard.tsx:110-120 | total records; recent uploads are the records uploaded after the instant a month ago, prescriptions the records with medications, both at most the total; two appointments; no recent uploads for an invalid cut-off |
| PatientDashboard.AllRecent | components/patient-dashboard.tsx:112-117 | when every record was uploaded within the month, the recent uploads equal the total |
| PatientDashboard.PrescriptionsSplit | components/patient-dashboard.tsx:119 | records with medications and records without them make up all records |
| PatientDashboard.StatsConcat | components/patient-dashboard.tsx:110-120 | the figures of two record lists add up |
| PatientDashboard.AfterDelete | components/patient-dashboard.tsx:53-65 | after an ok response exactly the records with that id are gone and the rest keep their order; otherwise nothing changes |
| PatientDashboard.DeleteStable | components/patient-dashboard.tsx:59-61 | deleting an id not listed changes nothing, and deleting twice is deleting once |
| PatientDetailView.RecordMedications | components/patient-detail-view.tsx:102 | the `medications` length when non-zero, else the `prescriptions` length; 0 exactly when both are empty or absent |
| PatientDetailView.TotalConcat | components/patient-detail-view.tsx:99-104 | the total over two record lists is the sum of their totals |
| PatientDetailView.TotalZero | components/patient-detail-view.tsx:99-104 | the total is 0 exactly when no record lists a medication, in particular without records |
| PatientDetailView.Visited | components/patient-detail-view.tsx:86 | "Never" exactly without records, otherwise the first record's creation date |
| PatientDetailView.RecordLabel | components/patient-detail-view.tsx:134-136 | "Voice Prescription" exactly when `type` is "voice_prescription", otherwise "OCR Prescription" |
| PatientDetailView.Shorten | components/patient-detail-view.tsx:180-196 | the first `min(3, n)` items, "+k more" exactly when `n > 3`, and the items plus `k` make `n` |
| PatientDetailView.ListedAsWritten | components/patient-detail-view.tsx:180 | a present `medications` list is shown even when empty |
| PatientDetailView.Listed | components/patient-detail-view.tsx:99-180 | the corrected list has as many medications as the total counts for the record |
| PatientDetailView.BlockAsWritten | components/patient-detail-view.tsx:175-199 | the Medications block as written: drawn exactly when the extraction has a non-empty list, over `medications \|\| prescriptions`, its items plus "+k more" being that list's length |
| PatientDetailView.Block | components/patient-detail-view.tsx:175-199 | the corrected block: drawn exactly when the extraction has a non-empty list, over the list the total counts |
| PatientDetailView.BlockMatchesTotal | components/patient-detail-view.tsx:99-196 | a drawn block lists at least one medication, and its items plus "+k more" equal the record's share of the total |
| PatientDetailView.EmptyHeadingAsWritten | components/patient-detail-view.tsx:175-196 | an empty `medications` list next to a non-empty `prescriptions` list draws the heading over no items |
| PatientDetailView.ItemShapesAgree | components/patient-detail-view.tsx:184-185 | a voice entry and an OCR entry with the same name and dose read the same |
| DoctorSearch.Search | components/doctor-search.tsx:76-81 | an ordered subsequence holding exactly the doctors whose name, clinic or specialisation contains the term, ignoring case, each as many times as it is listed |
| DoctorSearch.AbsentNeverMatches | components/doctor-search.tsx:78-80 | a doctor without any of the three fields is never found |
| DoctorSearch.EmptyTermKeepsDefined | components/doctor-search.tsx:78-80 | an empty term keeps exactly the doctors with at least one of the fields present |
| DoctorSearch.CaseInsensitive | components/doctor-search.tsx:78-80 | the case of the term does not matter |
| DoctorSearch.IsConnected | components/doctor-search.tsx:83 | true exactly when some connected doctor has the id |
| AuthGuard.Redirect | components/auth-guard.tsx:18-35 | no redirect while loading; "/" without a user; role selection without a role; the user's own dashboard for the wrong role; none otherwise |
| AuthGuard.Render | components/auth-guard.tsx:37-49 | the spinner exactly while loading; the children exactly when loaded with a user and a role |
| AuthGuard.RenderOrRedirect | components/auth-guard.tsx:18-49 | the children render exactly when loaded and not redirected, and nothing renders exactly when redirected |
| AuthGuard.WrongRoleLandsHome | components/auth-guard.tsx:30-31 | a doctor or patient turned away is sent to a dashboard whose guard admits them, so the redirects do not loop |
| PrescriptionDisplay.SeverityColor | components/prescription-display.tsx:46-56 | green exactly for "mild", yellow for "moderate", red for "severe", gray for anything else |
| PrescriptionDisplay.ConfidenceColor | components/prescription-display.tsx:59-63 | green exactly from 0.8, yellow exactly from 0.6 below 0.8, red exactly below 0.6 |
| PrescriptionDisplay.ConfidenceMonotone | components/prescription-display.tsx:59-63 | a higher confidence never gets a worse colour |
| PdfText.RenderConcat | lib/pdf-generator.ts:48-97 | the text of consecutive blocks of lines is the concatenation of their texts |
| PdfText.SymptomEntry | lib/pdf-generator.ts:64-67 | a numbered line, then exactly when the symptom has notes a second line reading "   Notes: " and the notes |
| PdfText.SymptomItems | lib/pdf-generator.ts:63-68 | one line per symptom plus one per symptom with notes |
| PdfText.NumberedLength | lib/pdf-generator.ts:63-79 | a list whose entries take one line, or two when an extra part is present, has as many lines as entries plus entries with the extra part |
| PdfText.NumberedAt | lib/pdf-generator.ts:63-79 | entry `i` occupies the lines starting after the `i` earlier entries and the extra lines of those |
| PdfText.NumberedLines | lib/pdf-generator.ts:63-79 | entry `i`'s first line, and its second when the extra part is present, sit at that position of the list's lines |
| PdfText.SymptomLines | lib/pdf-generator.ts:63-68 | symptom `i` is numbered `i + 1` on the line after the `i` earlier symptoms and their notes lines, followed by its notes line when it has notes |
| PdfText.PlainSymptomLines | lib/pdf-generator.ts:63-68 | without notes, line i is the numbered line of the i-th symptom, numbered 1 to n in list order |
| PdfText.SymptomSection | lib/pdf-generator.ts:61-70 | no section exactly without symptoms; otherwise the heading, the items and a blank line |
| PdfText.DiagnosisEntry | lib/pdf-generator.ts:75-78 | a numbered line, then exactly when the code is truthy a second line reading "   ICD-10: " and the code |
| PdfText.DiagnosisItems | lib/pdf-generator.ts:74-79 | one line per diagnosis plus one per coded diagnosis; without codes, numbered 1 to n in order |
| PdfText.DiagnosisLines | lib/pdf-generator.ts:74-79 | diagnosis `i` is numbered `i + 1` on the line after the `i` earlier diagnoses and their ICD-10 lines, followed by its ICD-10 line when the code is truthy |
| PdfText.DiagnosisSection | lib/pdf-generator.ts:72-81 | no section exactly without diagnoses; otherwise the heading, the items and a blank line |
| PdfText.MedicationEntry | lib/pdf-generator.ts:86-90 | five lines and a blank one per medication |
| PdfText.MedicationItems | lib/pdf-generator.ts:85-91 | six lines per medication |
| PdfText.SixLines | lib/pdf-generator.ts:85-91 | in a list whose entries all take six lines, the list has six lines per entry and entry `i` fills lines `6i` to `6i + 5` |
| PdfText.MedicationBlocks | lib/pdf-generator.ts:85-91 | the block of medication `i` starts at line `6i` and is numbered `i + 1` |
| PdfText.MedicationSection | lib/pdf-generator.ts:83-92 | no section exactly without medications; otherwise the heading and six lines per medication, ending blank |
| PdfText.Lines | lib/pdf-generator.ts:48-97 | the heading, the doctor block and the patient block open the text; the symptom, diagnosis and medication sections follow in that order; the disclaimer closes it |
| PdfText.TextFrame | lib/pdf-generator.ts:48-97 | the text starts with "MEDICAL PRESCRIPTION", a line break and the date line, and ends with the two-line AI notice |
| PdfText.HeadingText | lib/pdf-generator.ts:48-49 | the heading renders as the title, the date line and a blank line |
| PdfText.DisclaimerText | lib/pdf-generator.ts:94-95 | the closing lines render as a blank line and the two notices |
| PdfText.MissingFieldsNotProvided | lib/pdf-generator.ts:51-59 | missing doctor and patient fields read "Not provided", and the clinic line shows `clinicAddress` |
| PdfText.NoSectionsWhenEmpty | lib/pdf-generator.ts:61-92 | empty lists give no sections: the text is the sixteen fixed lines |

## Left out

- Storage and network. Every Firestore read and write, the Firestore ordering (`orderBy`) and every `fetch` are left out. Query results arrive as `seq` inputs in the order the query returned them.
- AI calls. The model's answer is left out. `HealthSummary.Summarize` stops at the data it would send. `VoicePrescription.Process` stops at the request it would send.
- The `try`/`catch` 500 responses are left out, except in `StatsSummary.SummaryAsWritten`. Fields are typed, so the `TypeError`s a non-string `text` or `name`, or a `null` list entry, would raise do not arise in the model.
- Clock, calendar, time zones and locale. These are parameters:
  - `new Date()` and `setMonth` in the dashboard, as the instant `monthAgo`;
  - `new Date()` and `setDate` in the summary series, as `stepBack`, the UTC day reached from the present moment by going back a number of local days;
  - the present month in the analytics route (`current`);
  - the local-midnight bounds of the fever months (`Analytics.Calendar`);
  - date parsing (`Instants.Parser`).
- Month labels, `toLocaleDateString` text and the ISO day-key strings are left out. Buckets carry month indices and UTC day numbers instead.
- `null` as distinct from `undefined`. Both are `None`, so where a stored field is `null` three behaviours are not modelled:
  - a template literal prints `null` where the model prints `undefined`;
  - a `Set` holds `null` and `undefined` as two members where the model has one `None`;
  - `new Date(null)` is the valid instant 0 (1 January 1970), while `Instants.FromText(None)` is `Invalid`. So a `null` `createdAt` (and, in the analytics route, a `null` `prescriptionDate` behind it) dates a record at the epoch in the source but gives no valid date in `Records.UploadInstant`, `Analytics.RecordDate` and `PatientDetailView.Visited`.
- Floating point. Percentages and the average are exact integer arithmetic. Lab values, means and confidences are `real`.
- Analytics.Percent: rounds the exact quotient. `Math.round` of an IEEE quotient can differ when the double lands just below a half.
- LabStats.Reading: the exact decimal value of the token, not the nearest double `parseFloat` returns.
- JsText.Lower: maps ASCII letters only. JavaScript's full Unicode case mapping is left out.
- JsText.Capitalize: upper-cases ASCII letters only, for the same reason.
- PdfText.ConfidenceText: a missing confidence prints as `NaN`. A confidence that is not a number in some other way is not modelled.
- PdfText: the date text is passed in already formatted. The download of the text as a plain-text `Blob` through a temporary link (lib/pdf-generator.ts:27-43) is left out.
- PatientDashboard: `handleDownloadPDF` (components/patient-dashboard.tsx:80-108) is left out. It calls `downloadPrescriptionPDF` from `@/lib/generate-prescription-pdf` (components/patient-dashboard.tsx:22), a module that is not part of this model. `PdfText` models lib/pdf-generator.ts, the generator used by components/prescription-display.tsx.
- VoicePrescription.Step:
  - the approve request's payload and the failure alerts are left out;
  - approval is an event that resets the editor as the success path does;
  - the Date and Diagnosis inputs are not modelled; the four textareas (symptoms, medications, instructions, notes) are;
  - `symptoms` is always a list, so the `TypeError` on an undefined `symptoms` does not arise.
- MedicationStats.Counts: keys are counted as in a map. The route counts into a plain object (app/api/stats/medications/route.ts:47-55), so a name that lower-cases to `__proto__` is never stored and one that lower-cases to `constructor` or another `Object.prototype` property starts from that inherited value, not from zero. `MedicationStats.CountsExact` and `Ranking.ObjectOrder` make the same assumption.
- StatsSummary.TopClinics: clinic names are counted as in a map. The route counts into a plain object (app/api/stats/summary/route.ts:51-56) without lower-casing, so a clinic named `__proto__`, `constructor`, `toString`, `valueOf`, `hasOwnProperty` or any other `Object.prototype` property is dropped or miscounted there. `StatsSummary.ClinicCountsExact` makes the same assumption.
- React rendering, hooks, charts and the speech recogniser are left out. Only the decisions the components make are modelled.
- The key order of `extractedData.values` in the lab route is taken as given by the input list. Lab keys contain letters, so `Object.keys` lists them in creation order.

## Findings

| source | as written | input that shows it | evidently intended | confidence | as-written member | corrected member |
|---|---|---|---|---|---|---|
| app/api/analytics/route.ts:116,139 | a month ends at `new Date(y, m + 1, 0)`, the first instant of its last day | a fever record dated 00:00:00.001 on the last day of a month in the window | count the whole month, up to the start of the next month | high (not executed) | Analytics.FeverMonthEndMissed | Analytics.FeverTrendTotal |
| app/api/stats/summary/route.ts:30-34,75 | an unparseable `createdAt` gives an invalid date, which passes the range filter; `toISOString` then throws and the route answers 500 | one record whose `createdAt` is "not a date" and which has no upload seconds | leave undatable records out, as records without any date already are | high (not executed) | StatsSummary.UnparseableDateFails | StatsSummary.SummaryAgrees |
| components/patient-detail-view.tsx:175-192 | the heading appears when either list is non-empty, but the list drawn is `medications \|\| prescriptions`, and an empty `medications` array is truthy | `extractedData` with `medications: []` and one entry in `prescriptions` | list the non-empty list, as the Active Medications total does | medium (not executed) | PatientDetailView.EmptyHeadingAsWritten | PatientDetailView.BlockMatchesTotal |

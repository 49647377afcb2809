/**
 * `generatePrescriptionText`: the plain-text prescription offered for
 * download.  The text is a sequence of lines, each ending in a line break;
 * the date is passed in already formatted.
 */
module PdfText {
  import opened Wrappers
  import opened Seqs
  import opened Records
  import JsText

  /** The doctor fields the text uses. */
  datatype DoctorFields = DoctorFields(name: Option<string>, clinicAddress: Option<string>, phone: Option<string>)

  /** The patient fields the text uses. */
  datatype PatientFields = PatientFields(name: Option<string>, age: Option<string>, gender: Option<string>)

  /** The three lists of the prescription. */
  datatype Content = Content(symptoms: seq<Symptom>, diagnoses: seq<Diagnosis>, medications: seq<Medication>)

  /** Each line followed by a line break. */
  function Render(lines: seq<string>): string
    decreases |lines|
  {
    if |lines| == 0 then "" else lines[0] + "\n" + Render(lines[1..])
  }

  lemma {:induction false} RenderConcat(a: seq<string>, b: seq<string>)
    ensures Render(a + b) == Render(a) + Render(b)
    decreases |a|
  {
    if |a| == 0 {
      assert a + b == b;
    } else {
      assert (a + b)[0] == a[0];
      assert (a + b)[1..] == a[1..] + b;
      RenderConcat(a[1..], b);
    }
  }

  const NotProvided: string := "Not provided"

  function Heading(date: string): seq<string> {
    ["MEDICAL PRESCRIPTION", "Date: " + date, ""]
  }

  function DoctorLines(d: DoctorFields): seq<string> {
    ["DOCTOR INFORMATION:",
     "Name: " + JsText.Or(d.name, NotProvided),
     "Clinic: " + JsText.Or(d.clinicAddress, NotProvided),
     "Phone: " + JsText.Or(d.phone, NotProvided),
     ""]
  }

  function PatientLines(p: PatientFields): seq<string> {
    ["PATIENT INFORMATION:",
     "Name: " + JsText.Or(p.name, NotProvided),
     "Age: " + JsText.Or(p.age, NotProvided),
     "Gender: " + JsText.Or(p.gender, NotProvided),
     ""]
  }

  const AiNotice: string := "This prescription was generated using AI assistance."
  const ReviewNotice: string := "Please review all details carefully before use."
  const Disclaimer: seq<string> := ["", AiNotice, ReviewNotice]

  /** `${index + 1}. ` */
  function Number(index: nat): string {
    JsText.NatToString(index + 1) + ". "
  }

  // ---------------------------------------------------------------- numbered lists

  /** The lines of a list whose element `i` is written as `entry(i, x)`, one entry after another. */
  function Numbered<T>(xs: seq<T>, entry: (nat, T) -> seq<string>): seq<string>
    decreases |xs|
  {
    if |xs| == 0 then [] else Numbered(xs[..|xs| - 1], entry) + entry(|xs| - 1, xs[|xs| - 1])
  }

  /** An entry is one line, or two for an element with `extra`. */
  ghost predicate OneOrTwo<T(!new)>(entry: (nat, T) -> seq<string>, extra: T -> bool) {
    forall j: nat, x: T :: |entry(j, x)| == if extra(x) then 2 else 1
  }

  /** How many elements have `extra`, counted from the back as `Numbered` is built. */
  function Extras<T>(xs: seq<T>, extra: T -> bool): nat
    decreases |xs|
  {
    if |xs| == 0 then 0 else Extras(xs[..|xs| - 1], extra) + (if extra(xs[|xs| - 1]) then 1 else 0)
  }

  /** `Extras` is `Count`; lets `NumberedLines` state positions with `Count`, for the `SymptomLines` and `DiagnosisLines` rows. */
  lemma {:induction false} ExtrasCount<T>(xs: seq<T>, extra: T -> bool)
    ensures Extras(xs, extra) == Count(xs, extra)
    decreases |xs|
  {
    if |xs| > 0 {
      var pre, x := xs[..|xs| - 1], xs[|xs| - 1];
      ExtrasCount(pre, extra);
      assert xs == pre + [x];
      CountConcat(pre, [x], extra);
      assert [x][..0] == [];
    }
  }

  lemma {:induction false} NumberedLength<T(!new)>(xs: seq<T>, entry: (nat, T) -> seq<string>, extra: T -> bool)
    requires OneOrTwo(entry, extra)
    ensures |Numbered(xs, entry)| == |xs| + Extras(xs, extra)
    decreases |xs|
  {
    if |xs| > 0 {
      NumberedLength(xs[..|xs| - 1], entry, extra);
    }
  }

  /** Entry `i` comes right after the entries before it, which take `i` lines and one more per `extra`. */
  lemma {:induction false} NumberedAt<T(!new)>(xs: seq<T>, entry: (nat, T) -> seq<string>, extra: T -> bool, i: nat)
    requires OneOrTwo(entry, extra)
    requires i < |xs|
    ensures var k := i + Extras(xs[..i], extra);
            && k + |entry(i, xs[i])| <= |Numbered(xs, entry)|
            && Numbered(xs, entry)[k..k + |entry(i, xs[i])|] == entry(i, xs[i])
    decreases |xs|
  {
    var pre := xs[..|xs| - 1];
    var a := Numbered(pre, entry);
    var b := entry(|xs| - 1, xs[|xs| - 1]);
    var e := entry(i, xs[i]);
    var k := i + Extras(xs[..i], extra);
    assert Numbered(xs, entry) == a + b;
    if i < |pre| {
      NumberedAt(pre, entry, extra, i);
      assert xs[..i] == pre[..i];
      assert pre[i] == xs[i];
      SliceOfFront(a, b, k, k + |e|);
    } else {
      assert xs[..i] == pre;
      NumberedLength(pre, entry, extra);
      SliceOfBack(a, b);
    }
  }

  lemma SliceOfFront<U>(a: seq<U>, b: seq<U>, lo: nat, hi: nat)
    requires lo <= hi <= |a|
    ensures (a + b)[lo..hi] == a[lo..hi]
  {
  }

  lemma SliceOfBack<U>(a: seq<U>, b: seq<U>)
    ensures (a + b)[|a|..|a| + |b|] == b
  {
  }

  /** In a list whose entries all take six lines, entry `i` fills lines `6 * i` to `6 * i + 5`. */
  lemma {:induction false} SixLines<T(!new)>(xs: seq<T>, entry: (nat, T) -> seq<string>, i: nat, j: nat)
    requires forall k: nat, x: T :: |entry(k, x)| == 6
    requires i < |xs| && j < 6
    ensures |Numbered(xs, entry)| == 6 * |xs|
    ensures Numbered(xs, entry)[6 * i + j] == entry(i, xs[i])[j]
    decreases |xs|
  {
    var pre := xs[..|xs| - 1];
    var a, b := Numbered(pre, entry), entry(|xs| - 1, xs[|xs| - 1]);
    assert Numbered(xs, entry) == a + b;
    if i < |pre| {
      SixLines(pre, entry, i, j);
      assert pre[i] == xs[i];
    } else {
      if |pre| > 0 {
        SixLines(pre, entry, 0, 0);
      }
    }
  }

  /** Entry `i`'s first line, and its second when `extra` holds, in the list's lines. */
  lemma {:induction false} NumberedLines<T(!new)>(xs: seq<T>, entry: (nat, T) -> seq<string>, extra: T -> bool, i: nat)
    requires OneOrTwo(entry, extra)
    requires i < |xs|
    ensures var k := i + Count(xs[..i], extra);
            && k < |Numbered(xs, entry)| && Numbered(xs, entry)[k] == entry(i, xs[i])[0]
            && (extra(xs[i]) ==> k + 1 < |Numbered(xs, entry)| && Numbered(xs, entry)[k + 1] == entry(i, xs[i])[1])
  {
    NumberedAt(xs, entry, extra, i);
    ExtrasCount(xs[..i], extra);
    var k := i + Count(xs[..i], extra);
    var e := entry(i, xs[i]);
    assert Numbered(xs, entry)[k] == Numbered(xs, entry)[k..k + |e|][0];
    if extra(xs[i]) {
      assert Numbered(xs, entry)[k + 1] == Numbered(xs, entry)[k..k + |e|][1];
    }
  }

  // ---------------------------------------------------------------- symptoms

  function SymptomSeverity(s: Symptom): Option<string> {
    if s.SymptomObject? then s.severity else None
  }

  function SymptomNotes(s: Symptom): Option<string> {
    if s.SymptomObject? then s.notes else None
  }

  predicate HasNotes(s: Symptom) {
    JsText.Truthy(SymptomNotes(s))
  }

  function SymptomLine(index: nat, s: Symptom): string {
    Number(index) + JsText.Interpolate(SymptomText(s)) + " (" + JsText.Interpolate(SymptomSeverity(s)) + ")"
  }

  /** The numbered line of one symptom, then its notes when it has any. */
  function SymptomEntry(index: nat, s: Symptom): (r: seq<string>)
    ensures |r| == if HasNotes(s) then 2 else 1
    ensures r[0] == SymptomLine(index, s)
    ensures HasNotes(s) ==> r[1] == "   Notes: " + SymptomNotes(s).value
  {
    [SymptomLine(index, s)] + (if HasNotes(s) then ["   Notes: " + SymptomNotes(s).value] else [])
  }

  function SymptomItems(ss: seq<Symptom>): (r: seq<string>)
    ensures |r| == |ss| + Count(ss, HasNotes)
    decreases |ss|
  {
    if |ss| == 0 then []
    else
      var pre := ss[..|ss| - 1];
      var last := ss[|ss| - 1];
      assert ss == pre + [last];
      CountConcat(pre, [last], HasNotes);
      assert [last][..0] == [];
      SymptomItems(pre) + SymptomEntry(|ss| - 1, last)
  }

  /** Without notes, the symptom lines are numbered from 1 in the order of the list. */
  lemma {:induction false} PlainSymptomLines(ss: seq<Symptom>)
    requires forall i :: 0 <= i < |ss| ==> !HasNotes(ss[i])
    ensures |SymptomItems(ss)| == |ss|
    ensures forall i :: 0 <= i < |ss| ==> SymptomItems(ss)[i] == SymptomLine(i, ss[i])
  {
    forall i | 0 <= i < |ss| ensures SymptomItems(ss)[i] == SymptomLine(i, ss[i]) {
      PlainSymptomLine(ss, i);
    }
    if |ss| > 0 {
      PlainSymptomLine(ss, 0);
    }
  }

  lemma {:induction false} PlainSymptomLine(ss: seq<Symptom>, i: nat)
    requires forall i :: 0 <= i < |ss| ==> !HasNotes(ss[i])
    requires i < |ss|
    ensures |SymptomItems(ss)| == |ss|
    ensures SymptomItems(ss)[i] == SymptomLine(i, ss[i])
    decreases |ss|
  {
    var pre := ss[..|ss| - 1];
    var last := ss[|ss| - 1];
    var r := SymptomItems(ss);
    assert r == SymptomItems(pre) + SymptomEntry(|ss| - 1, last);
    if i < |pre| {
      PlainSymptomLine(pre, i);
      assert r[i] == SymptomItems(pre)[i];
      assert pre[i] == ss[i];
    } else {
      if |pre| > 0 {
        PlainSymptomLine(pre, 0);
      }
      assert r[i] == SymptomEntry(|ss| - 1, last)[0];
    }
  }

  lemma SymptomShape()
    ensures OneOrTwo(SymptomEntry, HasNotes)
  {
    forall j: nat, x: Symptom ensures |SymptomEntry(j, x)| == if HasNotes(x) then 2 else 1 {
      var e := SymptomEntry(j, x);
    }
  }

  lemma {:induction false} SymptomItemsNumbered(ss: seq<Symptom>)
    ensures SymptomItems(ss) == Numbered(ss, SymptomEntry)
    decreases |ss|
  {
    if |ss| > 0 {
      SymptomItemsNumbered(ss[..|ss| - 1]);
    }
  }


  /**
   * The list is numbered 1 to n with notes interleaved: symptom `i` is the
   * line numbered `i + 1` after `i` lines and the notes before it, and its
   * notes, when it has any, are the next line.
   */
  lemma {:induction false} SymptomLines(ss: seq<Symptom>, i: nat)
    requires i < |ss|
    ensures var k := i + Count(ss[..i], HasNotes);
            && k < |SymptomItems(ss)| && SymptomItems(ss)[k] == SymptomLine(i, ss[i])
            && (HasNotes(ss[i]) ==> k + 1 < |SymptomItems(ss)| && SymptomItems(ss)[k + 1] == "   Notes: " + SymptomNotes(ss[i]).value)
  {
    SymptomItemsNumbered(ss);
    SymptomShape();
    NumberedLines(ss, SymptomEntry, HasNotes, i);
  }

  /** The SYMPTOMS section, only for a non-empty list. */
  function SymptomSection(ss: seq<Symptom>): (r: seq<string>)
    ensures r == [] <==> |ss| == 0
    ensures |ss| > 0 ==> r[0] == "SYMPTOMS:" && r[|r| - 1] == "" && |r| == 2 + |ss| + Count(ss, HasNotes)
  {
    if |ss| == 0 then [] else ["SYMPTOMS:"] + SymptomItems(ss) + [""]
  }

  // ---------------------------------------------------------------- diagnoses

  /** `Math.round(confidence * 100)` as text: halves round up, a missing confidence prints as `NaN`. */
  function ConfidenceText(c: Option<real>): string {
    match c
    case None => "NaN"
    case Some(x) => JsText.IntToString((x * 100.0 + 0.5).Floor)
  }

  predicate HasCode(d: Diagnosis) {
    JsText.Truthy(d.icd10)
  }

  function DiagnosisLine(index: nat, d: Diagnosis): string {
    Number(index) + JsText.Interpolate(d.text) + " (" + ConfidenceText(d.confidence) + "% confidence)"
  }

  function DiagnosisEntry(index: nat, d: Diagnosis): (r: seq<string>)
    ensures |r| == if HasCode(d) then 2 else 1
    ensures r[0] == DiagnosisLine(index, d)
    ensures HasCode(d) ==> r[1] == "   ICD-10: " + d.icd10.value
  {
    [DiagnosisLine(index, d)] + (if HasCode(d) then ["   ICD-10: " + d.icd10.value] else [])
  }

  function DiagnosisItems(ds: seq<Diagnosis>): (r: seq<string>)
    ensures |r| == |ds| + Count(ds, HasCode)
    ensures (forall i :: 0 <= i < |ds| ==> !HasCode(ds[i])) ==>
              forall i :: 0 <= i < |ds| ==> r[i] == DiagnosisLine(i, ds[i])
    decreases |ds|
  {
    if |ds| == 0 then []
    else
      var pre := ds[..|ds| - 1];
      var last := ds[|ds| - 1];
      assert ds == pre + [last];
      CountConcat(pre, [last], HasCode);
      assert [last][..0] == [];
      DiagnosisItems(pre) + DiagnosisEntry(|ds| - 1, last)
  }

  lemma DiagnosisShape()
    ensures OneOrTwo(DiagnosisEntry, HasCode)
  {
    forall j: nat, x: Diagnosis ensures |DiagnosisEntry(j, x)| == if HasCode(x) then 2 else 1 {
      var e := DiagnosisEntry(j, x);
    }
  }

  lemma {:induction false} DiagnosisItemsNumbered(ds: seq<Diagnosis>)
    ensures DiagnosisItems(ds) == Numbered(ds, DiagnosisEntry)
    decreases |ds|
  {
    if |ds| > 0 {
      DiagnosisItemsNumbered(ds[..|ds| - 1]);
    }
  }


  /**
   * The list is numbered 1 to n with ICD-10 lines interleaved: diagnosis `i`
   * is the line numbered `i + 1` after `i` lines and the codes before it, and
   * its code, when truthy, is the next line.
   */
  lemma {:induction false} DiagnosisLines(ds: seq<Diagnosis>, i: nat)
    requires i < |ds|
    ensures var k := i + Count(ds[..i], HasCode);
            && k < |DiagnosisItems(ds)| && DiagnosisItems(ds)[k] == DiagnosisLine(i, ds[i])
            && (HasCode(ds[i]) ==> k + 1 < |DiagnosisItems(ds)| && DiagnosisItems(ds)[k + 1] == "   ICD-10: " + ds[i].icd10.value)
  {
    DiagnosisItemsNumbered(ds);
    DiagnosisShape();
    NumberedLines(ds, DiagnosisEntry, HasCode, i);
  }

  function DiagnosisSection(ds: seq<Diagnosis>): (r: seq<string>)
    ensures r == [] <==> |ds| == 0
    ensures |ds| > 0 ==> r[0] == "DIAGNOSES:" && r[|r| - 1] == "" && |r| == 2 + |ds| + Count(ds, HasCode)
  {
    if |ds| == 0 then [] else ["DIAGNOSES:"] + DiagnosisItems(ds) + [""]
  }

  // ---------------------------------------------------------------- medications

  function Field(m: Medication, f: Medication -> Option<string>): string {
    JsText.Interpolate(if m.MedicationObject? then f(m) else None)
  }

  function Days(m: Medication): string {
    if m.MedicationObject? && m.durationDays.Some? then JsText.IntToString(m.durationDays.value) else "undefined"
  }

  /** Five lines and a blank one per medication, in the voice model's field names. */
  function MedicationEntry(index: nat, m: Medication): (r: seq<string>)
    ensures |r| == 6 && r[5] == ""
  {
    [Number(index) + Field(m, (m: Medication) => if m.MedicationObject? then m.name else None),
     "   Dosage: " + Field(m, (m: Medication) => if m.MedicationObject? then m.dose else None),
     "   Timing: " + Field(m, (m: Medication) => if m.MedicationObject? then m.timing else None),
     "   Duration: " + Days(m) + " days",
     "   Instructions: " + Field(m, (m: Medication) => if m.MedicationObject? then m.instructions else None),
     ""]
  }

  function MedicationItems(ms: seq<Medication>): (r: seq<string>)
    ensures |r| == 6 * |ms|
    decreases |ms|
  {
    if |ms| == 0 then [] else MedicationItems(ms[..|ms| - 1]) + MedicationEntry(|ms| - 1, ms[|ms| - 1])
  }

  lemma {:induction false} MedicationItemsNumbered(ms: seq<Medication>)
    ensures MedicationItems(ms) == Numbered(ms, MedicationEntry)
    decreases |ms|
  {
    if |ms| > 0 {
      MedicationItemsNumbered(ms[..|ms| - 1]);
    }
  }

  /** The block of medication `i` starts at line `6 * i`, numbered `i + 1`. */
  lemma {:induction false} MedicationBlocks(ms: seq<Medication>, i: nat, j: nat)
    requires i < |ms| && j < 6
    ensures MedicationItems(ms)[6 * i + j] == MedicationEntry(i, ms[i])[j]
  {
    MedicationItemsNumbered(ms);
    SixLines(ms, MedicationEntry, i, j);
  }

  /** The PRESCRIBED MEDICATIONS section; the blank line of its last entry ends it. */
  function MedicationSection(ms: seq<Medication>): (r: seq<string>)
    ensures r == [] <==> |ms| == 0
    ensures |ms| > 0 ==> r[0] == "PRESCRIBED MEDICATIONS:" && |r| == 1 + 6 * |ms| && r[|r| - 1] == ""
  {
    if |ms| == 0 then [] else ["PRESCRIBED MEDICATIONS:"] + MedicationItems(ms)
  }

  // ---------------------------------------------------------------- the whole text

  /** `r` holds the symptom, diagnosis and medication sections, in that order, between line 13 and the last three lines. */
  predicate SectionsAt(r: seq<string>, s: seq<string>, g: seq<string>, m: seq<string>) {
    && |r| == 16 + |s| + |g| + |m|
    && r[13..13 + |s|] == s
    && r[13 + |s|..13 + |s| + |g|] == g
    && r[13 + |s| + |g|..|r| - 3] == m
  }

  /**
   * The lines of the text: heading, doctor block and patient block, then
   * the three sections, then the disclaimer.
   */
  function Lines(c: Content, d: DoctorFields, p: PatientFields, date: string): (r: seq<string>)
    ensures |r| == 16 + |SymptomSection(c.symptoms)| + |DiagnosisSection(c.diagnoses)| + |MedicationSection(c.medications)|
    ensures r[..3] == Heading(date) && r[|r| - 3..] == Disclaimer
    ensures r[3..8] == DoctorLines(d) && r[8..13] == PatientLines(p)
    ensures SectionsAt(r, SymptomSection(c.symptoms), DiagnosisSection(c.diagnoses), MedicationSection(c.medications))
  {
    var s, g, m := SymptomSection(c.symptoms), DiagnosisSection(c.diagnoses), MedicationSection(c.medications);
    Blocks(Heading(date), DoctorLines(d), PatientLines(p), s, g, m, Disclaimer);
    Heading(date) + DoctorLines(d) + PatientLines(p) + (s + g + m) + Disclaimer
  }

  /** Where the blocks of `Lines` sit; serves the `Lines` row. */
  lemma Blocks(a: seq<string>, b: seq<string>, c: seq<string>, s: seq<string>, g: seq<string>, m: seq<string>,
               z: seq<string>)
    requires |a| == 3 && |b| == 5 && |c| == 5 && |z| == 3
    ensures var r := a + b + c + (s + g + m) + z;
            && |r| == 16 + |s| + |g| + |m| && r[..3] == a && r[3..8] == b && r[8..13] == c && r[|r| - 3..] == z
            && SectionsAt(r, s, g, m)
  {
    var r := a + b + c + (s + g + m) + z;
    assert r[13..|r| - 3] == s + g + m;
    assert r[13..13 + |s|] == (s + g + m)[..|s|];
    assert r[13 + |s|..13 + |s| + |g|] == (s + g + m)[|s|..|s| + |g|];
    assert r[13 + |s| + |g|..|r| - 3] == (s + g + m)[|s| + |g|..];
  }

  function PrescriptionText(c: Content, d: DoctorFields, p: PatientFields, date: string): string {
    Render(Lines(c, d, p, date))
  }

  function OpeningText(date: string): string {
    "MEDICAL PRESCRIPTION\nDate: " + date + "\n\n"
  }

  const ClosingText: string := "\n" + AiNotice + "\n" + ReviewNotice + "\n"

  /** `t` starts with the title and the date and ends with the two-line notice. */
  predicate Framed(t: string, date: string) {
    |OpeningText(date)| + |ClosingText| <= |t|
    && t[..|OpeningText(date)|] == OpeningText(date) && t[|t| - |ClosingText|..] == ClosingText
  }

  /** The text starts with the title and the date and ends with the two-line notice. */
  lemma TextFrame(c: Content, d: DoctorFields, p: PatientFields, date: string)
    ensures Framed(PrescriptionText(c, d, p, date), date)
  {
    FramedText(Lines(c, d, p, date), date);
  }

  /**
   * Rendered, lines that open with the heading and close with the disclaimer
   * give a text that starts with the title and date and ends with the
   * two-line notice; `Lines` always has that shape.
   */
  lemma {:induction false} FramedText(lines: seq<string>, date: string)
    requires |lines| >= 6 && lines[..3] == Heading(date) && lines[|lines| - 3..] == Disclaimer
    ensures Framed(Render(lines), date)
  {
    RenderFrame(lines);
    HeadingText(date);
    DisclaimerText();
  }

  /** The rendering of a text of at least six lines starts with its first three and ends with its last three. */
  lemma RenderFrame(lines: seq<string>)
    requires |lines| >= 6
    ensures var a, z := Render(lines[..3]), Render(lines[|lines| - 3..]);
            var t := Render(lines);
            |a| + |z| <= |t| && t[..|a|] == a && t[|t| - |z|..] == z
  {
    var mid := lines[3..|lines| - 3];
    assert lines == lines[..3] + mid + lines[|lines| - 3..];
    RenderConcat(lines[..3] + mid, lines[|lines| - 3..]);
    RenderConcat(lines[..3], mid);
    var a, b, z := Render(lines[..3]), Render(mid), Render(lines[|lines| - 3..]);
    var t := a + b + z;
    assert t[..|a|] == a;
    assert t[|t| - |z|..] == z;
  }

  lemma HeadingText(date: string)
    ensures Render(Heading(date)) == OpeningText(date)
  {
    var h := Heading(date);
    assert h[1..][1..][1..] == [];
    assert Render(h[1..][1..]) == "\n";
    assert Render(h[1..]) == "Date: " + date + "\n" + "\n";
  }

  lemma DisclaimerText()
    ensures Render(Disclaimer) == ClosingText
  {
    var h := Disclaimer;
    assert h[1..][1..][1..] == [];
    assert Render(h[1..][1..]) == ReviewNotice + "\n";
    assert Render(h[1..]) == AiNotice + "\n" + (ReviewNotice + "\n");
  }

  /** Missing doctor and patient fields read "Not provided"; the clinic line shows `clinicAddress`. */
  lemma MissingFieldsNotProvided(address: string)
    requires address != ""
    ensures DoctorLines(DoctorFields(None, Some(address), Some(""))) ==
            ["DOCTOR INFORMATION:", "Name: " + NotProvided, "Clinic: " + address, "Phone: " + NotProvided, ""]
    ensures PatientLines(PatientFields(None, None, None)) ==
            ["PATIENT INFORMATION:", "Name: " + NotProvided, "Age: " + NotProvided, "Gender: " + NotProvided, ""]
  {
  }

  /** A prescription with empty lists has no sections between the patient block and the disclaimer. */
  lemma NoSectionsWhenEmpty(d: DoctorFields, p: PatientFields, date: string)
    ensures |Lines(Content([], [], []), d, p, date)| == 16
  {
  }
}

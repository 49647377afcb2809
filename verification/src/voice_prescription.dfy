/**
 * The voice prescription editor: the guards in front of the request to the
 * voice model, the textareas through which a generated prescription's
 * medications and symptoms are edited as text, and the
 * edit / cancel / save / create-new state of the component.
 */
module VoicePrescription {
  import opened Wrappers
  import opened Seqs
  import opened Records
  import JsText

  // ---------------------------------------------------------------- process guards

  /** The parts of the signed-in doctor's profile the request uses. */
  datatype DoctorProfile = DoctorProfile(uid: Option<string>, displayName: Option<string>,
                                         clinicName: Option<string>, phone: Option<string>)

  /** The Patient Information card: the `patientInfo` state sent with the request. */
  datatype PatientInfo = PatientInfo(name: string, age: string, gender: string)

  /** The three inputs of that card. */
  datatype PatientField = Name | Age | Gender

  /**
   * The `useState` initialiser: the display name of the patient selected when
   * the editor was first rendered, or "", and empty age and gender. It runs
   * once, so a patient chosen later does not change it.
   */
  function InitialPatientInfo(displayNameAtMount: Option<string>): (r: PatientInfo)
    ensures JsText.Truthy(displayNameAtMount) ==> r.name == displayNameAtMount.value
    ensures !JsText.Truthy(displayNameAtMount) ==> r.name == ""
    ensures r.age == "" && r.gender == ""
  {
    PatientInfo(JsText.Or(displayNameAtMount, ""), "", "")
  }

  /** `setPatientInfo({ ...patientInfo, <field>: e.target.value })`. */
  function EditPatientInfo(info: PatientInfo, field: PatientField, text: string): (r: PatientInfo)
    ensures field == Name ==> r.name == text && r.(name := info.name) == info
    ensures field == Age ==> r.age == text && r.(age := info.age) == info
    ensures field == Gender ==> r.gender == text && r.(gender := info.gender) == info
  {
    match field
    case Name => info.(name := text)
    case Age => info.(age := text)
    case Gender => info.(gender := text)
  }

  datatype Submission =
    | Alert(message: string)
    | Request(transcript: string, doctorName: string, clinicAddress: string, phone: string,
              patientInfo: PatientInfo, patientId: string, doctorId: Option<string>)

  /**
   * `handleProcessPrescription` up to the request: the transcript is checked
   * first, then the selected patient (given by its uid); the request carries
   * the Patient Information card as it stands.
   */
  function Process(transcript: string, patient: Option<string>, doctor: DoctorProfile, info: PatientInfo): (r: Submission)
    ensures JsText.Trim(transcript) == "" <==> r == Alert("Please record a prescription first")
    ensures JsText.Trim(transcript) != "" && patient.None? <==> r == Alert("Please select a patient first")
    ensures r.Request? <==> JsText.Trim(transcript) != "" && patient.Some?
    ensures r.Request? ==> r.transcript == JsText.Trim(transcript) && r.transcript != ""
                           && r.patientId == patient.value && r.doctorId == doctor.uid
    ensures r.Request? ==> r.doctorName == JsText.Or(doctor.displayName, "Dr. Unknown")
                           && r.clinicAddress == JsText.Or(doctor.clinicName, "Unknown Clinic")
                           && r.phone == JsText.Or(doctor.phone, "Not provided")
    ensures r.Request? ==> r.patientInfo == info
  {
    if JsText.Trim(transcript) == "" then Alert("Please record a prescription first")
    else if patient.None? then Alert("Please select a patient first")
    else Request(JsText.Trim(transcript), JsText.Or(doctor.displayName, "Dr. Unknown"),
                 JsText.Or(doctor.clinicName, "Unknown Clinic"), JsText.Or(doctor.phone, "Not provided"),
                 info, patient.value, doctor.uid)
  }

  /**
   * Unless the card is edited, the request names the patient selected when
   * the editor was first rendered, whichever patient is selected now.
   */
  lemma StalePatientName(transcript: string, nameAtMount: string, patientNow: string, doctor: DoctorProfile)
    requires nameAtMount != "" && JsText.Trim(transcript) != ""
    ensures var r := Process(transcript, Some(patientNow), doctor, InitialPatientInfo(Some(nameAtMount)));
            r.Request? && r.patientId == patientNow && r.patientInfo.name == nameAtMount
  {
  }

  /** Without a patient selected at first render the request's patient name is empty until typed. */
  lemma NoPatientAtMount(transcript: string, patientNow: string, doctor: DoctorProfile, typed: string)
    requires JsText.Trim(transcript) != ""
    ensures Process(transcript, Some(patientNow), doctor, InitialPatientInfo(None)).patientInfo.name == ""
    ensures Process(transcript, Some(patientNow), doctor, EditPatientInfo(InitialPatientInfo(None), Name, typed))
              .patientInfo == PatientInfo(typed, "", "")
  {
  }

  // ---------------------------------------------------------------- the medications textarea

  const LineBreak: string := "\n"
  const Dash: string := " - "

  /** `${med.name} - ${med.dosage} - ${med.frequency} - ${med.duration}`: an absent field prints as `undefined`. */
  function MedicationLine(m: Medication): string {
    JsText.Join(LineFields(m), Dash)
  }

  function LineFields(m: Medication): (r: seq<string>)
    ensures |r| == 4
  {
    if m.MedicationObject? then
      [JsText.Interpolate(m.name), JsText.Interpolate(m.dosage), JsText.Interpolate(m.frequency),
       JsText.Interpolate(m.duration)]
    else ["undefined", "undefined", "undefined", "undefined"]
  }

  /** The textarea's value: one line per medication, or `""` without a list. */
  function MedicationsText(meds: Option<seq<Medication>>): string {
    match meds
    case None => ""
    case Some(ms) => JsText.Join(Map(ms, MedicationLine), LineBreak)
  }

  /** `parts[i] || ""`. */
  function PartOr(parts: seq<string>, i: nat): (r: string)
    ensures i < |parts| ==> r == parts[i]
    ensures i >= |parts| ==> r == ""
  {
    if i < |parts| then parts[i] else ""
  }

  /** One line of the textarea, split on `" - "` into the four editor fields. */
  function ParseLine(line: string): (r: Medication)
    ensures r.MedicationObject? && r.name.Some? && r.dosage.Some? && r.frequency.Some? && r.duration.Some?
    ensures r.medication.None? && r.dose.None? && r.timing.None? && r.durationDays.None? && r.instructions.None?
  {
    var parts := JsText.Split(line, Dash);
    EditorMedication(PartOr(parts, 0), PartOr(parts, 1), PartOr(parts, 2), PartOr(parts, 3))
  }

  /** The medications an edit of the textarea stores: one per line. */
  function ParseMedications(text: string): (r: seq<Medication>)
    ensures |r| == |JsText.Split(text, LineBreak)|
    ensures forall i :: 0 <= i < |r| ==> r[i] == ParseLine(JsText.Split(text, LineBreak)[i])
  {
    Map(JsText.Split(text, LineBreak), ParseLine)
  }

  /** There is one medication per line: one more than the text has line breaks. */
  lemma {:induction false} ParseCount(text: string)
    ensures |ParseMedications(text)| == JsText.Occurrences(text, '\n') + 1
  {
    JsText.SplitFromCount(text, '\n', "");
  }

  /** Clearing the textarea leaves one medication whose fields are all empty. */
  lemma EmptyTextOneBlank()
    ensures ParseMedications("") == [EditorMedication("", "", "", "")]
  {
  }

  /** A field the round trip keeps: it holds no dash and no line break. */
  predicate PlainField(s: string) {
    '-' !in s && '\n' !in s
  }

  /**
   * A line made of dash-free parts is read back part by part: the first four
   * fill name, dosage, frequency and duration, missing ones are empty, and
   * any further parts are dropped.
   */
  lemma {:induction false} ParseLineParts(parts: seq<string>)
    requires |parts| >= 1
    requires forall p :: p in parts ==> '-' !in p
    ensures ParseLine(JsText.Join(parts, Dash)) ==
            EditorMedication(PartOr(parts, 0), PartOr(parts, 1), PartOr(parts, 2), PartOr(parts, 3))
  {
    assert JsText.UniqueMark(Dash, 1);
    forall p, i | p in parts && 0 <= i < |p|
      ensures p[i] != Dash[1]
    {
      assert p[i] in p;
    }
    JsText.SplitJoin(parts, Dash, 1);
  }

  /** A medication as the editor writes it, with fields the text format can carry. */
  predicate Plain(m: Medication) {
    m.MedicationObject? && m.name.Some? && m.dosage.Some? && m.frequency.Some? && m.duration.Some?
    && m == EditorMedication(m.name.value, m.dosage.value, m.frequency.value, m.duration.value)
    && PlainField(m.name.value) && PlainField(m.dosage.value)
    && PlainField(m.frequency.value) && PlainField(m.duration.value)
  }

  lemma LineRoundTrip(m: Medication)
    requires Plain(m)
    ensures ParseLine(MedicationLine(m)) == m
    ensures '\n' !in MedicationLine(m)
  {
    var parts := LineFields(m);
    assert parts == [m.name.value, m.dosage.value, m.frequency.value, m.duration.value];
    ParseLineParts(parts);
    JsText.JoinAvoids(parts, Dash, '\n');
  }

  /** Showing a non-empty list of plain medications and reading the text back gives the same list. */
  lemma MedicationsRoundTrip(ms: seq<Medication>)
    requires |ms| >= 1
    requires forall i :: 0 <= i < |ms| ==> Plain(ms[i])
    ensures ParseMedications(MedicationsText(Some(ms))) == ms
  {
    var lines := Map(ms, MedicationLine);
    forall i | 0 <= i < |ms|
      ensures '\n' !in lines[i] && ParseLine(lines[i]) == ms[i]
    {
      LineRoundTrip(ms[i]);
    }
    assert JsText.UniqueMark(LineBreak, 0);
    forall p, i | p in lines && 0 <= i < |p|
      ensures p[i] != LineBreak[0]
    {
      assert p[i] in p;
    }
    JsText.SplitJoin(lines, LineBreak, 0);
  }

  /** An empty list does not survive: its text is `""`, which reads back as one blank medication. */
  lemma EmptyListNotRestored()
    ensures ParseMedications(MedicationsText(Some([]))) == [EditorMedication("", "", "", "")]
  {
  }

  /**
   * The voice model writes `dose` and `timing`, which the textarea does not
   * show: those parts of the line read `undefined`, and saving the text
   * stores that word as the dosage and frequency.
   */
  lemma VoiceFieldsShowUndefined(name: string, dose: string, timing: string)
    requires PlainField(name)
    ensures var m := MedicationObject(Some(name), None, None, Some(dose), None, Some(timing), None, Some(7), None);
            ParseLine(MedicationLine(m)) == EditorMedication(name, "undefined", "undefined", "undefined")
  {
    ParseLineParts([name, "undefined", "undefined", "undefined"]);
  }

  // ---------------------------------------------------------------- the symptoms textarea

  const ObjectShown: string := "[object Object]"

  /** `String(symptom)` as `join` writes it: an object prints as `[object Object]`. */
  function SymptomShown(s: Symptom): string {
    match s
    case SymptomString(t) => t
    case SymptomObject(_, _, _, _) => ObjectShown
  }

  function SymptomsText(ss: seq<Symptom>): string {
    JsText.Join(Map(ss, SymptomShown), LineBreak)
  }

  /** The symptoms an edit of the textarea stores: one string per line, never none. */
  function ParseSymptoms(text: string): (r: seq<Symptom>)
    ensures |r| == JsText.Occurrences(text, '\n') + 1
    ensures forall i :: 0 <= i < |r| ==> r[i].SymptomString?
  {
    JsText.SplitFromCount(text, '\n', "");
    Map(JsText.Split(text, LineBreak), (t: string) => SymptomString(t))
  }

  /** String symptoms without line breaks survive showing and reading back. */
  lemma SymptomsRoundTrip(ts: seq<string>)
    requires |ts| >= 1
    requires forall t :: t in ts ==> '\n' !in t
    ensures ParseSymptoms(SymptomsText(Map(ts, (t: string) => SymptomString(t)))) == Map(ts, (t: string) => SymptomString(t))
  {
    var ss := Map(ts, (t: string) => SymptomString(t));
    assert Map(ss, SymptomShown) == ts;
    assert JsText.UniqueMark(LineBreak, 0);
    forall p, i | p in ts && 0 <= i < |p|
      ensures p[i] != LineBreak[0]
    {
      assert p[i] in p;
    }
    JsText.SplitJoin(ts, LineBreak, 0);
  }

  /** Editing an empty symptom list stores one empty symptom. */
  lemma EmptySymptomsBecomeOne()
    ensures ParseSymptoms(SymptomsText([])) == [SymptomString("")]
  {
  }

  /** The voice model's symptom objects come back from the textarea as the text `[object Object]`. */
  lemma ObjectSymptomsLost(text: string, severity: string)
    ensures var s := SymptomObject(Some(text), None, Some(severity), None);
            ParseSymptoms(SymptomsText([s])) == [SymptomString(ObjectShown)]
  {
    var s := SymptomObject(Some(text), None, Some(severity), None);
    assert Map([s], SymptomShown) == [ObjectShown];
    assert Map([ObjectShown], (t: string) => SymptomString(t)) == [SymptomString(ObjectShown)];
    assert '\n' !in ObjectShown;
    SymptomsRoundTrip([ObjectShown]);
  }

  // ---------------------------------------------------------------- editor state

  /** A prescription as the editor holds it: the voice model's output or the empty template. */
  datatype Draft = Draft(symptoms: seq<Symptom>, diagnoses: Option<seq<Diagnosis>>,
                         medications: Option<seq<Medication>>, instructions: Option<string>,
                         notes: Option<string>, date: Option<string>, diagnosis: Option<string>)

  const Template: Draft := Draft([], Some([]), Some([]), Some(""), Some(""), None, None)

  /** `generatedPrescription`, `editedPrescription`, `isEditing` and the recorded transcript. */
  datatype Editor = Editor(generated: Option<Draft>, edited: Draft, editing: bool, transcript: string)

  const Initial: Editor := Editor(None, Template, false, "")

  datatype Event =
    | Heard(text: string)
    | Generated(draft: Draft)
    | Edit
    | Cancel
    | Save
    | CreateNew
    | Approved
    | Type(field: Textarea, text: string)

  /** The four textareas of the edit form. */
  datatype Textarea = Symptoms | Medications | Instructions | Notes

  /**
   * One event.  `None` when the event has no control in the current state:
   * the Edit, Approve, Save, Cancel and Create New buttons and the textareas
   * are only shown for a generated prescription, Edit and Approve only
   * outside editing, Save, Cancel and the textareas only while editing; the
   * recorder and the Process button only before a prescription is generated,
   * and Process only for a transcript that is not blank.
   */
  function Step(e: Editor, ev: Event): (r: Option<Editor>)
    ensures ev == Cancel && r.Some? ==> e.generated.Some? && r.value.edited == e.generated.value && !r.value.editing && r.value.transcript == e.transcript
    ensures ev == Save && r.Some? ==> r.value.generated == Some(e.edited) && r.value.edited == e.edited && !r.value.editing && r.value.transcript == e.transcript
    ensures (ev == CreateNew || ev == Approved) && r.Some? ==> r.value == Initial
    ensures ev.Generated? && r.Some? ==> r.value.generated == Some(ev.draft) && r.value.edited == ev.draft
    ensures ev.Type? && r.Some? ==>
              r.value.generated == e.generated && r.value.editing && r.value.transcript == e.transcript
  {
    match ev
    case Heard(t) =>
      if e.generated.None? then Some(e.(transcript := t)) else None
    case Generated(d) =>
      if e.generated.None? && JsText.Trim(e.transcript) != "" then Some(e.(generated := Some(d), edited := d)) else None
    case Edit =>
      if e.generated.Some? && !e.editing then Some(e.(editing := true)) else None
    case Cancel =>
      if e.generated.Some? && e.editing then Some(e.(editing := false, edited := e.generated.value)) else None
    case Save =>
      if e.generated.Some? && e.editing then Some(e.(generated := Some(e.edited), editing := false)) else None
    case CreateNew =>
      if e.generated.Some? then Some(Initial) else None
    case Approved =>
      if e.generated.Some? && !e.editing then Some(Initial) else None
    case Type(_, _) =>
      if e.generated.Some? && e.editing then Some(e.(edited := Typed(e.edited, ev.field, ev.text))) else None
  }

  /** What an edit in a textarea leaves in the edited copy: only that textarea's field changes. */
  function Typed(d: Draft, field: Textarea, text: string): (r: Draft)
    ensures field == Instructions ==> JsText.Or(r.instructions, "") == text && r.(instructions := d.instructions) == d
    ensures field == Notes ==> JsText.Or(r.notes, "") == text && r.(notes := d.notes) == d
    ensures field == Symptoms ==> r.symptoms == ParseSymptoms(text) && r.(symptoms := d.symptoms) == d
    ensures field == Medications ==> r.medications == Some(ParseMedications(text)) && r.(medications := d.medications) == d
  {
    match field
    case Medications => d.(medications := Some(ParseMedications(text)))
    case Symptoms => d.(symptoms := ParseSymptoms(text))
    case Instructions => d.(instructions := Some(text))
    case Notes => d.(notes := Some(text))
  }

  /** The events in order; `None` once one of them has no control. */
  function Run(e: Editor, evs: seq<Event>): Option<Editor>
    decreases |evs|
  {
    if |evs| == 0 then Some(e)
    else
      match Step(e, evs[0])
      case None => None
      case Some(e') => Run(e', evs[1..])
  }

  /**
   * What every reachable state satisfies: editing only with a generated
   * prescription; outside editing the edited copy is the generated one; and
   * with nothing generated the edited copy is the empty template.
   */
  predicate Consistent(e: Editor) {
    && (e.editing ==> e.generated.Some?)
    && (!e.editing && e.generated.Some? ==> e.edited == e.generated.value)
    && (e.generated.None? ==> e.edited == Template && !e.editing)
  }

  lemma StepConsistent(e: Editor, ev: Event)
    requires Consistent(e)
    ensures Step(e, ev).Some? ==> Consistent(Step(e, ev).value)
  {
  }

  lemma {:induction false} RunConsistent(e: Editor, evs: seq<Event>)
    requires Consistent(e)
    ensures Run(e, evs).Some? ==> Consistent(Run(e, evs).value)
    decreases |evs|
  {
    if |evs| > 0 {
      StepConsistent(e, evs[0]);
      if Step(e, evs[0]).Some? {
        RunConsistent(Step(e, evs[0]).value, evs[1..]);
      }
    }
  }

  /** What is approved is the prescription on display: outside editing the edited copy is the generated one. */
  lemma {:induction false} ApprovesWhatIsShown(evs: seq<Event>)
    requires Run(Initial, evs).Some?
    ensures var e := Run(Initial, evs).value;
            Step(e, Approved).Some? ==> e.edited == e.generated.value
  {
    RunConsistent(Initial, evs);
  }

  /** An edit in one of the four textareas. */
  predicate Typing(ev: Event) {
    ev.Type?
  }

  /** Typing while editing keeps the generated prescription and stays in editing. */
  lemma {:induction false} TypingKeeps(e: Editor, evs: seq<Event>)
    requires e.generated.Some? && e.editing
    requires forall i :: 0 <= i < |evs| ==> Typing(evs[i])
    ensures Run(e, evs).Some?
    ensures Run(e, evs).value.generated == e.generated && Run(e, evs).value.editing
    decreases |evs|
  {
    if |evs| > 0 {
      var e' := Step(e, evs[0]).value;
      TypingKeeps(e', evs[1..]);
    }
  }

  /** Edit, any typing, Cancel: the edited copy is the generated prescription again. */
  lemma {:induction false} CancelDiscards(e: Editor, typing: seq<Event>)
    requires e.generated.Some? && !e.editing
    requires forall i :: 0 <= i < |typing| ==> Typing(typing[i])
    ensures var r := Run(e, [Edit] + typing + [Cancel]);
            r.Some? && r.value.edited == e.generated.value && r.value.generated == e.generated && !r.value.editing
  {
    var e1 := Step(e, Edit).value;
    TypingKeeps(e1, typing);
    RunAppend(e1, typing, [Cancel]);
    assert ([Edit] + typing + [Cancel])[1..] == typing + [Cancel];
  }

  /** Edit, any typing, Save: the typed text becomes the generated prescription. */
  lemma {:induction false} SaveKeeps(e: Editor, typing: seq<Event>)
    requires e.generated.Some? && !e.editing
    requires forall i :: 0 <= i < |typing| ==> Typing(typing[i])
    ensures Run(e, [Edit] + typing).Some?
    ensures var r := Run(e, [Edit] + typing + [Save]);
            r.Some? && r.value.generated == Some(Run(e, [Edit] + typing).value.edited) && !r.value.editing
  {
    var e1 := Step(e, Edit).value;
    TypingKeeps(e1, typing);
    RunAppend(e1, typing, [Save]);
    assert ([Edit] + typing + [Save])[1..] == typing + [Save];
    assert ([Edit] + typing)[1..] == typing;
  }

  lemma {:induction false} RunAppend(e: Editor, a: seq<Event>, b: seq<Event>)
    ensures Run(e, a + b) == if Run(e, a).Some? then Run(Run(e, a).value, b) else None
    decreases |a|
  {
    if |a| == 0 {
      assert a + b == b;
    } else {
      assert (a + b)[0] == a[0];
      assert (a + b)[1..] == a[1..] + b;
      if Step(e, a[0]).Some? {
        RunAppend(Step(e, a[0]).value, a[1..], b);
      }
    }
  }
}

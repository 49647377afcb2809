/**
 * The doctor directory as a patient searches it: the filter over the listed
 * doctors and the test for doctors the patient is already connected to.
 */
module DoctorSearch {
  import opened Wrappers
  import opened Seqs
  import opened Records
  import JsText

  /** `field?.toLowerCase().includes(term.toLowerCase())`: an absent field gives `undefined`, which is falsy. */
  predicate FieldMatches(field: Option<string>, term: string) {
    field.Some? && JsText.Contains(JsText.Lower(field.value), JsText.Lower(term))
  }

  predicate Matches(d: Doctor, term: string) {
    FieldMatches(d.displayName, term) || FieldMatches(d.clinicName, term) || FieldMatches(d.specialization, term)
  }

  /** `filteredDoctors`. */
  function Search(doctors: seq<Doctor>, term: string): (r: seq<Doctor>)
    ensures IsSubsequence(r, doctors)
    ensures forall i :: 0 <= i < |r| ==> Matches(r[i], term)
    ensures forall i :: 0 <= i < |doctors| && Matches(doctors[i], term) ==> doctors[i] in r
    ensures forall d :: multiset(r)[d] == if Matches(d, term) then multiset(doctors)[d] else 0
  {
    forall d ensures multiset(Filter(doctors, (d: Doctor) => Matches(d, term)))[d]
                     == if Matches(d, term) then multiset(doctors)[d] else 0 {
      FilterMultiset(doctors, (d: Doctor) => Matches(d, term), d);
    }
    Filter(doctors, (d: Doctor) => Matches(d, term))
  }

  /** A doctor without any of the three fields is never found. */
  lemma AbsentNeverMatches(id: string, term: string)
    ensures Search([Doctor(id, None, None, None)], term) == []
  {
    assert [Doctor(id, None, None, None)][..0] == [];
  }

  predicate HasSearchableField(d: Doctor) {
    d.displayName.Some? || d.clinicName.Some? || d.specialization.Some?
  }

  /** With an empty search term the list keeps exactly the doctors that have a searchable field, even an empty one. */
  lemma {:induction false} EmptyTermKeepsDefined(doctors: seq<Doctor>)
    ensures Search(doctors, "") == Filter(doctors, HasSearchableField)
  {
    forall d: Doctor
      ensures Matches(d, "") == HasSearchableField(d)
    {
      if d.displayName.Some? { JsText.ContainsEmpty(JsText.Lower(d.displayName.value)); }
      if d.clinicName.Some? { JsText.ContainsEmpty(JsText.Lower(d.clinicName.value)); }
      if d.specialization.Some? { JsText.ContainsEmpty(JsText.Lower(d.specialization.value)); }
    }
    FilterSame(doctors, (d: Doctor) => Matches(d, ""), HasSearchableField);
  }

  /** The search ignores the case of the term. */
  lemma CaseInsensitive(doctors: seq<Doctor>, term: string)
    ensures Search(doctors, term) == Search(doctors, JsText.Lower(term))
  {
    JsText.LowerIdempotent(term);
    FilterSame(doctors, (d: Doctor) => Matches(d, term), (d: Doctor) => Matches(d, JsText.Lower(term)));
  }

  /** `connectedDoctors.some((doc) => doc.id === doctorId)`, scanning from the front. */
  function IsConnected(connected: seq<Doctor>, id: string): (r: bool)
    ensures r <==> exists i :: 0 <= i < |connected| && connected[i].id == id
    decreases |connected|
  {
    if |connected| == 0 then false
    else if connected[0].id == id then true
    else
      var rest := IsConnected(connected[1..], id);
      assert rest <==> exists i :: 1 <= i < |connected| && connected[i].id == id by {
        if rest {
          var i :| 0 <= i < |connected[1..]| && connected[1..][i].id == id;
          assert connected[i + 1].id == id;
        }
        if exists i :: 1 <= i < |connected| && connected[i].id == id {
          var i :| 1 <= i < |connected| && connected[i].id == id;
          assert connected[1..][i - 1].id == id;
        }
      }
      rest
  }
}

/** The colour classes of the prescription display: symptom severity and diagnosis confidence. */
module PrescriptionDisplay {

  const Green: string := "bg-green-100 text-green-800 border-green-200"
  const Yellow: string := "bg-yellow-100 text-yellow-800 border-yellow-200"
  const Red: string := "bg-red-100 text-red-800 border-red-200"
  const Gray: string := "bg-gray-100 text-gray-800 border-gray-200"

  /** `getSeverityColor`: the three known severities, and gray for anything else. */
  function SeverityColor(severity: string): (r: string)
    ensures r == Green <==> severity == "mild"
    ensures r == Yellow <==> severity == "moderate"
    ensures r == Red <==> severity == "severe"
    ensures r == Gray <==> severity != "mild" && severity != "moderate" && severity != "severe"
  {
    if severity == "mild" then Green
    else if severity == "moderate" then Yellow
    else if severity == "severe" then Red
    else Gray
  }

  const ConfidentText: string := "text-green-600"
  const UnsureText: string := "text-yellow-600"
  const DoubtfulText: string := "text-red-600"

  /** `getConfidenceColor`, with the confidence as an exact number. */
  function ConfidenceColor(confidence: real): (r: string)
    ensures r == ConfidentText <==> confidence >= 0.8
    ensures r == UnsureText <==> 0.6 <= confidence < 0.8
    ensures r == DoubtfulText <==> confidence < 0.6
  {
    if confidence >= 0.8 then ConfidentText
    else if confidence >= 0.6 then UnsureText
    else DoubtfulText
  }

  /** How good a confidence colour is: red, then yellow, then green. */
  function Grade(color: string): nat {
    if color == ConfidentText then 2 else if color == UnsureText then 1 else 0
  }

  /** A higher confidence never gets a worse colour. */
  lemma ConfidenceMonotone(a: real, b: real)
    requires a <= b
    ensures Grade(ConfidenceColor(a)) <= Grade(ConfidenceColor(b))
  {
  }
}

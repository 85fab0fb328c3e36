/** The Tailwind colour families the banners and toasts are drawn in. */
module Tones {
  datatype Tone = Blue | Emerald | Red | Amber

  function ToneName(t: Tone): (r: string)
    ensures |r| > 0
  {
    match t
    case Blue => "blue"
    case Emerald => "emerald"
    case Red => "red"
    case Amber => "amber"
  }

  /** The names differ in their first letter. */
  lemma ToneInitials(a: Tone, b: Tone)
    requires a != b
    ensures ToneName(a)[0] != ToneName(b)[0]
  {
  }
}

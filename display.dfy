/** Values computed for the catalog cards: the zero-padded number label and the colour
    class of a type badge. */
module Display {
  import opened Text

  /** `id.toString().padStart(3, '0')`: at least three characters, the decimal digits of
      `id` at the end, preceded only by '0'. */
  function IdLabel(id: nat): (r: string)
    ensures |r| == if |DecimalString(id)| >= 3 then |DecimalString(id)| else 3
    ensures r[|r| - |DecimalString(id)|..] == DecimalString(id)
    ensures forall i :: 0 <= i < |r| - |DecimalString(id)| ==> r[i] == '0'
  {
    PadStart(DecimalString(id), 3, '0')
  }

  /** The label reads back as the record's id: the padding only adds leading zeros. */
  lemma IdLabelDenotesId(id: nat)
    ensures AllDigits(IdLabel(id)) && DecimalValue(IdLabel(id)) == id
  {
    var digits := DecimalString(id);
    var r := IdLabel(id);
    var zeros := r[..|r| - |digits|];
    assert r == zeros + digits;
    LeadingZerosValue(zeros, digits);
  }

  /** Ids below 1000 get a label of exactly three characters. */
  lemma IdLabelShortIds(id: nat)
    requires id < 1000
    ensures |IdLabel(id)| == 3
  {
    assert Power10(1) == 10 && Power10(2) == 100 && Power10(3) == 1000;
    DecimalStringLength(id, 3);
  }

  /** The types that have a colour of their own. */
  const ColouredTypes: set<string> := {
    "fire", "water", "grass", "electric", "psychic", "ice", "dragon", "dark", "fairy",
    "normal", "fighting", "flying", "poison", "ground", "rock", "bug", "ghost", "steel"
  }

  /** The fallback colour of a type badge. */
  const DefaultBadge: string := "bg-gray-600"

  /** The colour class of a type badge: the first matching type in the chain of
      comparisons, `bg-gray-600` for any other type. */
  function BadgeClass(t: string): (r: string)
    ensures r == DefaultBadge <==> t !in ColouredTypes
  {
    if t == "fire" then "bg-red-500"
    else if t == "water" then "bg-blue-500"
    else if t == "grass" then "bg-green-500"
    else if t == "electric" then "bg-yellow-500"
    else if t == "psychic" then "bg-purple-500"
    else if t == "ice" then "bg-cyan-500"
    else if t == "dragon" then "bg-indigo-500"
    else if t == "dark" then "bg-gray-800"
    else if t == "fairy" then "bg-pink-500"
    else if t == "normal" then "bg-gray-500"
    else if t == "fighting" then "bg-red-700"
    else if t == "flying" then "bg-blue-300"
    else if t == "poison" then "bg-purple-700"
    else if t == "ground" then "bg-yellow-700"
    else if t == "rock" then "bg-yellow-800"
    else if t == "bug" then "bg-green-700"
    else if t == "ghost" then "bg-purple-800"
    else if t == "steel" then "bg-gray-400"
    else DefaultBadge
  }
}

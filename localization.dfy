/** The two display languages and the month-name table both charts share. */
module Localization {

  /** A language tag the application can hold: `'EN'` or `'FR'`. */
  type Language = s: string | s == "EN" || s == "FR" witness "EN"

  /** The full month names, January to December, in the given language. */
  function MonthNames(lang: Language): (names: seq<string>)
    ensures |names| == 12
    ensures forall i, j :: 0 <= i < j < 12 ==> names[i] != names[j]
  {
    if lang == "EN" then
      ["January", "February", "March", "April", "May", "June",
       "July", "August", "September", "October", "November", "December"]
    else
      ["Janvier", "Février", "Mars", "Avril", "Mai", "Juin",
       "Juillet", "Août", "Septembre", "Octobre", "Novembre", "Décembre"]
  }
}

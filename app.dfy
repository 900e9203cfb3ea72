/** The application root: the language shared by both charts and the button
    that toggles it. */
module Application {
  import opened Localization

  /** The updater passed to `setLanguage`: `'FR'` after `'EN'`, `'EN'` after
      anything else. */
  function Toggle(prev: string): (next: Language)
    ensures next != prev
    ensures next == "FR" <==> prev == "EN"
  {
    if prev == "EN" then "FR" else "EN"
  }

  /** Toggling twice gives back the language one started from. */
  lemma ToggleTwice(lang: Language)
    ensures Toggle(Toggle(lang)) == lang
  {
  }

  class App {
    var language: Language

    constructor ()
      ensures language == "EN"
    {
      language := "EN";
    }

    method ToggleLanguage()
      modifies this
      ensures language == Toggle(old(language))
    {
      language := Toggle(language);
    }
  }
}

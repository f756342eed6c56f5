/**
 * The header's language button: French, then Arabic, then English, then
 * French again, and the short label shown for the current language.
 */
module Header {
  /** `toggleLanguage`: fr goes to ar, ar to en, anything else to fr. */
  function NextLanguage(lang: string): (r: string)
    ensures lang == "fr" ==> r == "ar"
    ensures lang == "ar" ==> r == "en"
    ensures lang != "fr" && lang != "ar" ==> r == "fr"
    ensures r in {"fr", "ar", "en"}
  {
    if lang == "fr" then "ar" else if lang == "ar" then "en" else "fr"
  }

  /** `getLanguageLabel`. */
  function LanguageLabel(lang: string): (r: string)
    ensures lang == "fr" <==> r == "FR"
    ensures lang == "ar" <==> r == "AR"
    ensures lang != "fr" && lang != "ar" <==> r == "EN"
  {
    if lang == "fr" then "FR" else if lang == "ar" then "AR" else "EN"
  }

  /** Three presses come back to the start from any of the three languages,
      and any start is inside the rotation after three presses. */
  lemma ThreePressesReturn(lang: string)
    ensures lang in {"fr", "ar", "en"} ==> NextLanguage(NextLanguage(NextLanguage(lang))) == lang
    ensures NextLanguage(NextLanguage(NextLanguage(lang))) in {"fr", "ar", "en"}
  {
  }

  /** After a press from one of the three languages the label shows the
      next one in the order FR, AR, EN. */
  lemma LabelFollowsRotation(lang: string)
    requires lang in {"fr", "ar", "en"}
    ensures LanguageLabel(NextLanguage(lang)) == (if lang == "fr" then "AR" else if lang == "ar" then "EN" else "FR")
  {
  }
}

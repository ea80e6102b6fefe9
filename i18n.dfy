/** The web app's language choice (apps/app/src/i18n.ts): any stored or
    browser value is narrowed to one of the two supported languages. */
module I18n {
  import opened Wrappers
  import opened Text

  datatype Language = En | ZhCN

  /** The language tag. */
  function Tag(l: Language): string {
    match l
    case En => "en"
    case ZhCN => "zh-CN"
  }

  const SupportedLanguages: seq<string> := ["en", "zh-CN"]

  /** `normalizeLanguage`: a missing or empty value is English; a value whose
      lower-cased form starts with "zh" is Simplified Chinese; anything else
      is English. */
  function NormalizeLanguage(value: Option<string>): (r: Language)
    ensures Tag(r) in SupportedLanguages
    ensures r == ZhCN <==> value.Some? && StartsWith(ToLower(value.value), "zh")
  {
    if value.None? || value.value == "" then En
    else if StartsWith(ToLower(value.value), "zh") then ZhCN
    else En
  }

  lemma {:induction false} ToLowerOfTags()
    ensures ToLower("en") == "en" && ToLower("zh-CN") == "zh-cn"
  {
    var z := ToLower("zh-CN");
    assert z[0] == LowerChar('z') && z[1] == LowerChar('h') && z[2] == LowerChar('-');
    assert z[3] == LowerChar('C') && z[4] == LowerChar('N');
    var e := ToLower("en");
    assert e[0] == LowerChar('e') && e[1] == LowerChar('n');
  }

  /** A supported tag normalises to itself, so normalising is idempotent. */
  lemma {:induction false} NormalizeLanguageIdempotent(value: Option<string>, l: Language)
    ensures NormalizeLanguage(Some(Tag(l))) == l
    ensures NormalizeLanguage(Some(Tag(NormalizeLanguage(value)))) == NormalizeLanguage(value)
  {
    ToLowerOfTags();
  }

  /** What the browser offers: the stored preference and `navigator.language`. */
  datatype Browser = Browser(stored: Option<string>, navigatorLanguage: string)

  /** `detectInitialLanguage`: English without a window; otherwise a non-empty
      stored preference wins over the browser's language. */
  function DetectInitialLanguage(window: Option<Browser>): (r: Language)
    ensures window.None? ==> r == En
    ensures window.Some? && window.value.stored.Some? && window.value.stored.value != "" ==>
      r == NormalizeLanguage(window.value.stored)
    ensures window.Some? && (window.value.stored.None? || window.value.stored.value == "") ==>
      r == NormalizeLanguage(Some(window.value.navigatorLanguage))
  {
    match window
    case None => En
    case Some(w) =>
      if w.stored.Some? && w.stored.value != "" then NormalizeLanguage(w.stored)
      else NormalizeLanguage(Some(w.navigatorLanguage))
  }

  /** A stored preference decides alone: the browser's language is not looked
      at. */
  lemma {:induction false} StoredPreferenceWins(stored: string, nav1: string, nav2: string)
    requires stored != ""
    ensures DetectInitialLanguage(Some(Browser(Some(stored), nav1))) ==
            DetectInitialLanguage(Some(Browser(Some(stored), nav2)))
  {
  }
}

/** The language tables: the selectable languages of the translate screens
    (frontend/src/types.ts) and the display names used by the history view
    (frontend/src/components/TranslationHistory.tsx). */
module Languages {
  import opened Optional

  /** One entry of the language selector. */
  datatype Language = Language(code: string, displayName: string)

  /** `LANGUAGES`, in the order the selector lists them. */
  const LANGUAGES: seq<Language> := [
    Language("en", "英語"),
    Language("ja", "日本語"),
    Language("fr", "フランス語"),
    Language("es", "スペイン語"),
    Language("de", "ドイツ語"),
    Language("it", "イタリア語"),
    Language("ko", "韓国語"),
    Language("zh-cn", "中国語（簡体）"),
    Language("zh-tw", "中国語（繁体）")
  ]

  /** The table inside `getLanguageName`. */
  const LANGUAGE_NAMES: map<string, string> := map[
    "en" := "英語",
    "ja" := "日本語",
    "fr" := "フランス語",
    "es" := "スペイン語",
    "de" := "ドイツ語",
    "it" := "イタリア語",
    "ko" := "韓国語",
    "zh-cn" := "中国語（簡体）",
    "zh-tw" := "中国語（繁体）"
  ]

  /** The codes a user can pick. */
  function SupportedCodes(): (codes: set<string>)
    ensures forall i :: 0 <= i < |LANGUAGES| ==> LANGUAGES[i].code in codes
    ensures forall c :: c in codes ==> exists i :: 0 <= i < |LANGUAGES| && LANGUAGES[i].code == c
  {
    set i | 0 <= i < |LANGUAGES| :: LANGUAGES[i].code
  }

  /** The history view's table has an entry for exactly the selectable codes. */
  lemma TablesHaveSameCodes()
    ensures LANGUAGE_NAMES.Keys == SupportedCodes()
  {
    var listed := {"en", "ja", "fr", "es", "de", "it", "ko", "zh-cn", "zh-tw"};
    assert SupportedCodes() == listed by {
      assert forall i :: 0 <= i < |LANGUAGES| ==> LANGUAGES[i].code in listed;
      assert LANGUAGES[0].code == "en" && LANGUAGES[1].code == "ja" && LANGUAGES[2].code == "fr";
      assert LANGUAGES[3].code == "es" && LANGUAGES[4].code == "de" && LANGUAGES[5].code == "it";
      assert LANGUAGES[6].code == "ko" && LANGUAGES[7].code == "zh-cn" && LANGUAGES[8].code == "zh-tw";
    }
  }

  /** Each selectable language is named there by its selector label. */
  lemma TablesHaveSameNames()
    ensures forall i :: 0 <= i < |LANGUAGES| ==> LANGUAGES[i].code in LANGUAGE_NAMES
    ensures forall i :: 0 <= i < |LANGUAGES| ==>
      LANGUAGE_NAMES[LANGUAGES[i].code] == LANGUAGES[i].displayName
  {
  }

  /** `getLanguageName(code)`: `languages[code] || code`, the table's label
      for a listed code and the code itself for any other. */
  function LanguageName(code: string): (name: string)
    ensures code in LANGUAGE_NAMES ==> name == LANGUAGE_NAMES[code]
    ensures code !in LANGUAGE_NAMES ==> name == code
    ensures name == "" <==> code == ""
  {
    if code in LANGUAGE_NAMES && LANGUAGE_NAMES[code] != "" then LANGUAGE_NAMES[code] else code
  }

  /** The source-language label of a history entry:
      `getLanguageName(item.source_lang || "auto")`. */
  function SourceLanguageLabel(sourceLang: Option<string>): (shown: string)
    ensures sourceLang.None? || sourceLang.value == "" ==> shown == "auto"
    ensures sourceLang.Some? && sourceLang.value != "" ==> shown == LanguageName(sourceLang.value)
  {
    LanguageName(if sourceLang.Some? && sourceLang.value != "" then sourceLang.value else "auto")
  }
}

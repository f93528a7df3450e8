// The translation helper (js/shared/i18n.js): which language `init`
// chooses, how `t` looks a key up with the Traditional Chinese dictionary
// and the key itself as fallbacks, and the `{name}` placeholder
// substitution.
//
// The saved language and the browser's UI language are parameters; the
// dictionaries are a map from language to a map from key to text.

module I18n {

  import opened Common

  const FALLBACK_LANG := "zh-TW"

  /**
   * The language `init` settles on: a saved language ("" when none is
   * saved) wins; otherwise the UI language decides.
   */
  function ChooseLang(saved: string, uiLang: string): string
  {
    if saved == "" then
      if uiLang == "zh-CN" || uiLang == "zh-SG" then "zh-CN"
      else if StartsWith(uiLang, "zh") then "zh-TW"
      else if StartsWith(uiLang, "ja") then "ja"
      else "en"
    else saved
  }

  /**
   * Without a saved language the choice is one of the four supported ones,
   * and saving it makes it stick whatever the UI language becomes.
   */
  lemma ChosenLangIsSupported(uiLang: string, laterUiLang: string)
    ensures ChooseLang("", uiLang) in {"zh-CN", "zh-TW", "ja", "en"}
    ensures ChooseLang(ChooseLang("", uiLang), laterUiLang) == ChooseLang("", uiLang)
  {
  }

  /** Simplified Chinese is chosen only for the mainland and Singapore codes. */
  lemma SimplifiedOnlyFor(uiLang: string)
    ensures ChooseLang("", uiLang) == "zh-CN" <==> uiLang == "zh-CN" || uiLang == "zh-SG"
  {
  }

  type Dict = map<string, string>

  /** `locales[lang] || locales["zh-TW"] || {}` */
  function Dictionary(locales: map<string, Dict>, lang: string): (d: Dict)
    ensures lang in locales ==> d == locales[lang]
    ensures lang !in locales && FALLBACK_LANG in locales ==> d == locales[FALLBACK_LANG]
    ensures lang !in locales && FALLBACK_LANG !in locales ==> d == map[]
  {
    if lang in locales then locales[lang]
    else if FALLBACK_LANG in locales then locales[FALLBACK_LANG]
    else map[]
  }

  /** The text `t` starts from: the current dictionary's, else the fallback dictionary's, else the key. */
  function Lookup(locales: map<string, Dict>, lang: string, key: string): (s: string)
    ensures key in Dictionary(locales, lang) ==> s == Dictionary(locales, lang)[key]
    ensures key !in Dictionary(locales, lang) && FALLBACK_LANG in locales && key in locales[FALLBACK_LANG] ==>
      s == locales[FALLBACK_LANG][key]
    ensures key !in Dictionary(locales, lang) && !(FALLBACK_LANG in locales && key in locales[FALLBACK_LANG]) ==>
      s == key
  {
    var dict := Dictionary(locales, lang);
    if key in dict then dict[key]
    else if FALLBACK_LANG in locales && key in locales[FALLBACK_LANG] then locales[FALLBACK_LANG][key]
    else key
  }

  /** `t` never fails: its text is an entry of some dictionary, or the key itself. */
  lemma LookupIsEntryOrKey(locales: map<string, Dict>, lang: string, key: string)
    ensures var s := Lookup(locales, lang, key);
      s == key || exists l :: l in locales && key in locales[l] && locales[l][key] == s
  {
    var s := Lookup(locales, lang, key);
    var dict := Dictionary(locales, lang);
    if key in dict {
      var l := if lang in locales then lang else FALLBACK_LANG;
      assert l in locales && key in locales[l] && locales[l][key] == s;
    } else if FALLBACK_LANG in locales && key in locales[FALLBACK_LANG] {
      assert locales[FALLBACK_LANG][key] == s;
    }
  }

  /** The placeholder `{k}` of a parameter name. */
  function Placeholder(k: string): (p: string)
    ensures |p| == |k| + 2 && p[0] == '{' && p[|p| - 1] == '}'
  {
    "{" + k + "}"
  }

  /** Every parameter in turn replaces all occurrences of its placeholder. */
  function SubstituteAll(s: string, params: seq<(string, string)>): string
    decreases |params|
  {
    if params == [] then s
    else SubstituteAll(ReplaceAll(s, Placeholder(params[0].0), params[0].1), params[1..])
  }

  /** A text without '{' is returned as it is, whatever the parameters. */
  lemma {:induction false} NoPlaceholderUnchanged(s: string, params: seq<(string, string)>)
    requires '{' !in s
    ensures SubstituteAll(s, params) == s
    decreases |params|
  {
    if params != [] {
      ReplaceAbsent(s, Placeholder(params[0].0), params[0].1);
      NoPlaceholderUnchanged(s, params[1..]);
    }
  }

  /** Parameters whose values are their own placeholders change nothing. */
  lemma {:induction false} SelfSubstitutionUnchanged(s: string, params: seq<(string, string)>)
    requires forall i :: 0 <= i < |params| ==> params[i].1 == Placeholder(params[i].0)
    ensures SubstituteAll(s, params) == s
    decreases |params|
  {
    if params != [] {
      ReplaceSelf(s, Placeholder(params[0].0));
      SelfSubstitutionUnchanged(s, params[1..]);
    }
  }

  class Translator {
    var currentLang: string
    /** `I18nLocales` */
    const locales: map<string, Dict>

    constructor (dictionaries: map<string, Dict>)
      ensures currentLang == "en" && locales == dictionaries
    {
      currentLang := "en";
      locales := dictionaries;
    }

    /** `init()`: the chosen language becomes current and is returned. */
    method Init(saved: string, uiLang: string) returns (lang: string)
      modifies this`currentLang
      ensures lang == currentLang == ChooseLang(saved, uiLang)
    {
      if saved == "" {
        if uiLang == "zh-CN" || uiLang == "zh-SG" {
          currentLang := "zh-CN";
        } else if StartsWith(uiLang, "zh") {
          currentLang := "zh-TW";
        } else if StartsWith(uiLang, "ja") {
          currentLang := "ja";
        } else {
          currentLang := "en";
        }
      } else {
        currentLang := saved;
      }
      lang := currentLang;
    }

    /**
     * `t(key, params)`: the looked-up text with each parameter's
     * placeholder replaced, in parameter order; without parameters the
     * looked-up text itself.
     */
    method T(key: string, params: seq<(string, string)>) returns (s: string)
      ensures s == SubstituteAll(Lookup(locales, currentLang, key), params)
      ensures params == [] ==> s == Lookup(locales, currentLang, key)
    {
      var dict := Dictionary(locales, currentLang);
      var found := key in dict;
      if found {
        s := dict[key];
      } else {
        if FALLBACK_LANG in locales && key in locales[FALLBACK_LANG] {
          s := locales[FALLBACK_LANG][key];
        } else {
          s := key;
        }
      }
      var i := 0;
      while i < |params|
        invariant 0 <= i <= |params|
        invariant SubstituteAll(s, params[i..]) == SubstituteAll(Lookup(locales, currentLang, key), params)
      {
        assert params[i..][1..] == params[i + 1..];
        s := ReplaceAll(s, Placeholder(params[i].0), params[i].1);
        i := i + 1;
      }
    }
  }
}

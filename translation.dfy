/** The bilingual layer: the `en`/`pt-pt` language toggle, the toggle labels,
    and `translateContent`, which rewrites every element tagged with a
    message key from the selected locale's dictionary. */
module Translation {
  import opened Values
  import Storage

  /** What was last written into an element: `textContent` (plain text) or
      `innerHTML` (markup taken verbatim). */
  datatype Content = Text(text: string) | Markup(html: string)

  /** An element as `translateContent` sees it: its `data-translate`,
      `data-translate-html` and `data-translate-placeholder` attributes, and
      the two things it writes. */
  datatype Element = Element(
    translateKey: Option<string>,
    translateHtml: Option<string>,
    placeholderKey: Option<string>,
    content: Content,
    placeholder: string)

  /** The dictionary value for a key attribute; a missing or empty key, and a
      key the dictionary lacks, give nothing. */
  function Lookup(dictionary: map<string, string>, key: Option<string>): Option<string>
  {
    if key.Some? && key.value != "" && key.value in dictionary then Some(dictionary[key.value]) else None
  }

  /** The first pass over `[data-translate]`. */
  function TranslateText(e: Element, dictionary: map<string, string>): Element
  {
    match Lookup(dictionary, e.translateKey)
    case None => e
    case Some(v) => e.(content := if e.translateHtml == Some("true") then Markup(v) else Text(v))
  }

  /** The second pass over `[data-translate-placeholder]`. */
  function TranslatePlaceholder(e: Element, dictionary: map<string, string>): Element
  {
    match Lookup(dictionary, e.placeholderKey)
    case None => e
    case Some(v) => e.(placeholder := v)
  }

  /** Both passes on one element. */
  function Translated(e: Element, dictionary: map<string, string>): Element
  {
    TranslatePlaceholder(TranslateText(e, dictionary), dictionary)
  }

  /** Both passes on every element. */
  function TranslatedAll(es: seq<Element>, dictionary: map<string, string>): seq<Element>
  {
    seq(|es|, i requires 0 <= i < |es| => Translated(es[i], dictionary))
  }

  /** The applier's rules for one element: attributes never change; content
      is replaced by the value (markup iff `data-translate-html` is exactly
      `true`) when the key is non-empty and known, and kept otherwise; the
      placeholder follows its own key by the same skip rules. */
  lemma TranslatedRules(e: Element, dictionary: map<string, string>)
    ensures var t := Translated(e, dictionary);
      && t.translateKey == e.translateKey
      && t.translateHtml == e.translateHtml
      && t.placeholderKey == e.placeholderKey
      && (Lookup(dictionary, e.translateKey).None? ==> t.content == e.content)
      && (Lookup(dictionary, e.translateKey).Some? && e.translateHtml == Some("true") ==>
            t.content == Markup(dictionary[e.translateKey.value]))
      && (Lookup(dictionary, e.translateKey).Some? && e.translateHtml != Some("true") ==>
            t.content == Text(dictionary[e.translateKey.value]))
      && (Lookup(dictionary, e.placeholderKey).None? ==> t.placeholder == e.placeholder)
      && (Lookup(dictionary, e.placeholderKey).Some? ==>
            t.placeholder == dictionary[e.placeholderKey.value])
  {
  }

  /** Applying a locale twice is the same as applying it once. */
  lemma TranslateIdempotent(es: seq<Element>, dictionary: map<string, string>)
    ensures TranslatedAll(TranslatedAll(es, dictionary), dictionary) == TranslatedAll(es, dictionary)
  {
  }

  /** The last locale applied wins: when every key of the first dictionary is
      also in the second (as for `en` and `pt-pt`), applying the first and
      then the second is the same as applying only the second. */
  lemma LastLocaleWins(es: seq<Element>, first: map<string, string>, second: map<string, string>)
    requires first.Keys <= second.Keys
    ensures TranslatedAll(TranslatedAll(es, first), second) == TranslatedAll(es, second)
  {
  }

  /** The document language as the toggle reads it: anything but `pt-pt`
      counts as `en`. */
  function CurrentLanguage(lang: string): string
  {
    if lang == "pt-pt" then "pt-pt" else "en"
  }

  /** The language a toggle switches to. */
  function NewLanguage(lang: string): string
  {
    if CurrentLanguage(lang) == "en" then "pt-pt" else "en"
  }

  /** The toggle's label: the short code of the other language. */
  function LabelFor(lang: string): string
  {
    if lang == "pt-pt" then "EN" else "PT"
  }

  /** The toggle always changes language, and two toggles return to the
      language the first one started from (so `en` to `en`). */
  lemma ToggleTwice(lang: string)
    ensures NewLanguage(lang) != CurrentLanguage(lang)
    ensures NewLanguage(lang) == "en" || NewLanguage(lang) == "pt-pt"
    ensures NewLanguage(NewLanguage(lang)) == CurrentLanguage(lang)
  {
  }

  /** A label reads `EN` iff the language is `pt-pt`, and it always names the
      language a click would switch to. */
  lemma LabelNamesNextLanguage(lang: string)
    ensures LabelFor(lang) == "EN" <==> lang == "pt-pt"
    ensures LabelFor(lang) == (if NewLanguage(lang) == "en" then "EN" else "PT")
  {
  }

  /** The scenario of a one-key dictionary: switching an element to `pt-pt`
      shows `Olá`, and switching back shows `Hi` again. */
  lemma SwitchAndBack(e: Element)
    requires e.translateKey == Some("a") && e.translateHtml == None
    ensures var translations := map["en" := map["a" := "Hi"], "pt-pt" := map["a" := "Olá"]];
      var pt := TranslatedAll([e], translations["pt-pt"]);
      && pt[0].content == Text("Olá")
      && TranslatedAll(pt, translations["en"])[0].content == Text("Hi")
  {
  }

  /** The elements the language code works on. */
  class LanguageSwitcher {
    const store: Storage.Store
    /** The static dictionary literal: locale -> key -> message. */
    const translations: map<string, map<string, string>>
    /** Every element carrying `data-translate` or `data-translate-placeholder`. */
    const elements: array<Element>
    /** The `textContent` of each `.language-toggle`. */
    const toggles: array<string>
    /** `document.documentElement.lang`. */
    var documentLang: string

    /** The `DOMContentLoaded` loader: apply the saved `language` (default
        `en`; an empty string counts as missing) without saving it again. */
    constructor Init(store: Storage.Store, translations: map<string, map<string, string>>,
                     elements: array<Element>, toggles: array<string>)
      modifies elements, toggles
      ensures this.store == store && this.translations == translations
      ensures this.elements == elements && this.toggles == toggles
      ensures documentLang == OrDefault(store.GetItem("language"), "en")
      ensures forall i :: 0 <= i < toggles.Length ==> toggles[i] == LabelFor(documentLang)
      ensures elements[..] ==
        if documentLang in translations then TranslatedAll(old(elements[..]), translations[documentLang])
        else old(elements[..])
    {
      this.store := store;
      this.translations := translations;
      this.elements := elements;
      this.toggles := toggles;
      documentLang := OrDefault(store.GetItem("language"), "en");
      new;
      UpdateLabels(documentLang);
      TranslateContent(documentLang);
    }

    /** `updateLanguageToggleLabels(lang)`. */
    method UpdateLabels(lang: string)
      modifies toggles
      ensures forall i :: 0 <= i < toggles.Length ==> toggles[i] == LabelFor(lang)
    {
      var i := 0;
      while i < toggles.Length
        invariant 0 <= i <= toggles.Length
        invariant forall k :: 0 <= k < i ==> toggles[k] == LabelFor(lang)
      {
        toggles[i] := if lang == "pt-pt" then "EN" else "PT";
        i := i + 1;
      }
    }

    /** `translateContent(lang)`: nothing for an unknown locale; otherwise the
        text pass over every element, then the placeholder pass. */
    method TranslateContent(lang: string)
      modifies elements
      ensures elements[..] ==
        if lang in translations then TranslatedAll(old(elements[..]), translations[lang])
        else old(elements[..])
    {
      if lang !in translations {
        return;
      }
      var dictionary := translations[lang];
      var i := 0;
      while i < elements.Length
        invariant 0 <= i <= elements.Length
        invariant forall k :: 0 <= k < i ==> elements[k] == TranslateText(old(elements[k]), dictionary)
        invariant forall k :: i <= k < elements.Length ==> elements[k] == old(elements[k])
      {
        var e := elements[i];
        if e.translateKey.Some? && e.translateKey.value != "" && e.translateKey.value in dictionary {
          var value := dictionary[e.translateKey.value];
          if e.translateHtml == Some("true") {
            elements[i] := e.(content := Markup(value));
          } else {
            elements[i] := e.(content := Text(value));
          }
        }
        i := i + 1;
      }
      i := 0;
      while i < elements.Length
        invariant 0 <= i <= elements.Length
        invariant forall k :: 0 <= k < i ==> elements[k] == Translated(old(elements[k]), dictionary)
        invariant forall k :: i <= k < elements.Length ==> elements[k] == TranslateText(old(elements[k]), dictionary)
      {
        var e := elements[i];
        if e.placeholderKey.Some? && e.placeholderKey.value != "" && e.placeholderKey.value in dictionary {
          elements[i] := e.(placeholder := dictionary[e.placeholderKey.value]);
        }
        i := i + 1;
      }
    }

    /** `toggleLanguage`: switch language, mirror it on the document, save it,
        relabel the toggles and translate the page. */
    method Toggle()
      modifies this`documentLang, store, elements, toggles
      ensures documentLang == NewLanguage(old(documentLang))
      ensures store.entries == old(store.entries)["language" := documentLang]
      ensures forall i :: 0 <= i < toggles.Length ==> toggles[i] == LabelFor(documentLang)
      ensures elements[..] ==
        if documentLang in translations then TranslatedAll(old(elements[..]), translations[documentLang])
        else old(elements[..])
    {
      var newLang := NewLanguage(documentLang);
      documentLang := newLang;
      store.SetItem("language", newLang);
      UpdateLabels(newLang);
      TranslateContent(newLang);
    }
  }
}

/**
 * The language provider: the two interface languages, the lookup `t` with
 * fallback to the key itself, the text direction, and the language chosen
 * at start-up from the value saved in local storage. The translation
 * tables are a parameter; their contents are not modelled.
 */
module Language {
  import opened Wrappers

  datatype Lang = Ar | Fr

  /** The code a language is saved and attached to the document as. */
  function Code(l: Lang): string {
    match l
    case Ar => "ar"
    case Fr => "fr"
  }

  /** One table per language, from translation key to text. */
  datatype Tables = Tables(ar: map<string, string>, fr: map<string, string>)

  function TableOf(tables: Tables, l: Lang): map<string, string> {
    match l
    case Ar => tables.ar
    case Fr => tables.fr
  }

  /** The text a table holds for `key`, when it holds a non-empty one. */
  predicate Translated(table: map<string, string>, key: string) {
    key in table && table[key] != ""
  }

  /**
   * `t`: the current language's text for `key`; a key the table lacks, or
   * maps to the empty string, is shown as the key itself.
   */
  function T(tables: Tables, l: Lang, key: string): (r: string)
    ensures Translated(TableOf(tables, l), key) ==> r == TableOf(tables, l)[key]
    ensures !Translated(TableOf(tables, l), key) ==> r == key
  {
    var table := TableOf(tables, l);
    if key in table && table[key] != "" then table[key] else key
  }

  /** The lookup never shows an empty string for a non-empty key, and shows the key only when no text replaces it. */
  lemma TNeverBlank(tables: Tables, l: Lang, key: string)
    requires key != ""
    ensures T(tables, l, key) != ""
    ensures T(tables, l, key) == key <==> !Translated(TableOf(tables, l), key) || TableOf(tables, l)[key] == key
  {
  }

  /** `dir`: Arabic is laid out right to left, French left to right. */
  function Dir(l: Lang): (d: string)
    ensures d == "rtl" <==> l == Ar
    ensures d == "ltr" <==> l == Fr
  {
    match l
    case Ar => assert "rtl"[0] == 'r' && "ltr"[0] == 'l'; "rtl"
    case Fr => assert "rtl"[0] == 'r' && "ltr"[0] == 'l'; "ltr"
  }

  /** What the language effect writes: the saved value, the document's `lang` and its `dir`. */
  datatype Document = Document(saved: string, lang: string, dir: string)

  function Apply(l: Lang): (doc: Document)
    ensures doc.saved == doc.lang == Code(l)
    ensures doc.dir == Dir(l)
  {
    Document(Code(l), Code(l), Dir(l))
  }

  // ----- start-up language -----

  /**
   * The start-up language as the provider computes it: the saved value cast
   * to a language without checking it, or "ar" when nothing (or the empty
   * string) is saved.
   */
  function InitialCodeAsWritten(saved: Option<string>): (code: string)
    ensures saved.None? || saved.value == "" ==> code == "ar"
    ensures saved.Some? && saved.value != "" ==> code == saved.value
  {
    if saved.Some? && saved.value != "" then saved.value else "ar"
  }

  datatype LookupError = NoTable(code: string)

  /**
   * `t` over a language code, as the provider evaluates it: the code selects
   * a table, and a code with no table makes the lookup fail before any key
   * is read.
   */
  function TByCode(tables: Tables, code: string, key: string): (r: Result<string, LookupError>)
    ensures code == "ar" ==> r == Ok(T(tables, Ar, key))
    ensures code == "fr" ==> r == Ok(T(tables, Fr, key))
    ensures code != "ar" && code != "fr" ==> r == Err(NoTable(code))
  {
    if code == "ar" then Ok(T(tables, Ar, key))
    else if code == "fr" then Ok(T(tables, Fr, key))
    else Err(NoTable(code))
  }

  /**
   * A saved value left by another build or edited by hand, such as "en",
   * becomes the current language, and every lookup then fails.
   */
  lemma UnknownSavedBreaksLookup(tables: Tables, key: string)
    ensures InitialCodeAsWritten(Some("en")) == "en"
    ensures TByCode(tables, InitialCodeAsWritten(Some("en")), key) == Err(NoTable("en"))
  {
  }

  /** Reading a saved value back: one of the two codes, or nothing. */
  function ParseLang(code: string): (r: Option<Lang>)
    ensures forall l :: r == Some(l) <==> Code(l) == code
  {
    if code == "ar" then Some(Ar) else if code == "fr" then Some(Fr) else None
  }

  /**
   * The start-up language with the saved value checked: a saved code is
   * honoured, and anything else, including nothing saved, gives Arabic.
   */
  function InitialLanguage(saved: Option<string>): (l: Lang)
    ensures saved.Some? && ParseLang(saved.value).Some? ==> Code(l) == saved.value
    ensures saved.None? || ParseLang(saved.value).None? ==> l == Ar
  {
    if saved.Some? && ParseLang(saved.value).Some? then ParseLang(saved.value).value else Ar
  }

  /**
   * The checked start-up language agrees with the provider whenever the
   * provider's lookup works, and its lookup always works: every value the
   * provider handles is read the same, and a reload restores the language
   * the effect saved.
   */
  lemma InitialLanguageAgrees(tables: Tables, saved: Option<string>, key: string)
    ensures TByCode(tables, InitialCodeAsWritten(saved), key).Ok? ==>
      TByCode(tables, InitialCodeAsWritten(saved), key) == Ok(T(tables, InitialLanguage(saved), key))
    ensures TByCode(tables, Code(InitialLanguage(saved)), key) == Ok(T(tables, InitialLanguage(saved), key))
  {
  }

  lemma ReloadRestores(l: Lang)
    ensures InitialLanguage(Some(Apply(l).saved)) == l
    ensures InitialCodeAsWritten(Some(Apply(l).saved)) == Code(l)
  {
  }
}

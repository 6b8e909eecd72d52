/**
 * The syntax-highlighting modes a pane can be set to (LanguageSelector.tsx
 * lines 3-15).  The selector's option values are the codes below; choosing
 * an option hands its code back as a `Language`.
 */
module Languages {
  import opened Wrappers

  datatype Language = Text | Json | Yaml | JavaScript | TypeScript | Python | Markdown | Xml | Html

  /** The ordered option list of the selector. */
  const All: seq<Language> := [Text, Json, Yaml, JavaScript, TypeScript, Python, Markdown, Xml, Html]

  /** An option's `value`. */
  function Code(lang: Language): string
  {
    match lang
    case Text => "text"
    case Json => "json"
    case Yaml => "yaml"
    case JavaScript => "javascript"
    case TypeScript => "typescript"
    case Python => "python"
    case Markdown => "markdown"
    case Xml => "xml"
    case Html => "html"
  }

  /** An option's `label`. */
  function Label(lang: Language): string
  {
    match lang
    case Text => "Plain text"
    case Json => "JSON"
    case Yaml => "YAML"
    case JavaScript => "JavaScript"
    case TypeScript => "TypeScript"
    case Python => "Python"
    case Markdown => "Markdown"
    case Xml => "XML"
    case Html => "HTML"
  }

  /** The language whose option has value `code`, if any (`e.target.value as Language`). */
  function FromCode(code: string): (r: Option<Language>)
    ensures r.Some? ==> Code(r.value) == code
  {
    if code == "text" then Some(Text)
    else if code == "json" then Some(Json)
    else if code == "yaml" then Some(Yaml)
    else if code == "javascript" then Some(JavaScript)
    else if code == "typescript" then Some(TypeScript)
    else if code == "python" then Some(Python)
    else if code == "markdown" then Some(Markdown)
    else if code == "xml" then Some(Xml)
    else if code == "html" then Some(Html)
    else None
  }

  /**
   * Every language is listed exactly once with its own value and label, and
   * its option value selects it again: the selector hands back the language
   * it shows.
   */
  lemma OptionsRoundTrip(lang: Language)
    ensures FromCode(Code(lang)) == Some(lang)
    ensures lang in All
    ensures forall i, j :: 0 <= i < j < |All| ==> Code(All[i]) != Code(All[j])
    ensures forall i, j :: 0 <= i < j < |All| ==> Label(All[i]) != Label(All[j])
  {
  }
}

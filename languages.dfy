/**
  Mapping an editor's language identifier to one of the seven target
  languages of the code snippet (`mapLanguageId`).
 */
module LanguageIds {
  import opened Generators

  /** The identifier of each target language, as the `Language` union spells it. */
  function LanguageName(lang: Language): string
  {
    match lang
    case JavaScript => "javascript"
    case TypeScript => "typescript"
    case Python => "python"
    case Java => "java"
    case CSharp => "csharp"
    case Cpp => "cpp"
    case C => "c"
  }

  /** The recognised editor identifiers: the seven names, and the React variants of JavaScript and TypeScript. */
  const LanguageMap: map<string, Language> := map[
    "javascript" := JavaScript,
    "javascriptreact" := JavaScript,
    "typescript" := TypeScript,
    "typescriptreact" := TypeScript,
    "python" := Python,
    "java" := Java,
    "csharp" := CSharp,
    "cpp" := Cpp,
    "c" := C
  ]

  /** `mapLanguageId(languageId)`: the mapped language, JavaScript for anything unrecognised. */
  function MapLanguageId(id: string): Language
  {
    if id in LanguageMap then LanguageMap[id] else JavaScript
  }

  /** Every target language's own name maps back to it. */
  lemma MapLanguageName(lang: Language)
    ensures MapLanguageId(LanguageName(lang)) == lang
  {
  }

  /**
    An identifier maps to a language exactly when it is that language's name,
    the React variant of JavaScript's or TypeScript's name, or, for
    JavaScript, an identifier that is not recognised at all.
   */
  lemma MapLanguageIdExactly(id: string, lang: Language)
    ensures MapLanguageId(id) == lang <==>
      id == LanguageName(lang) ||
      ((lang == JavaScript || lang == TypeScript) && id == LanguageName(lang) + "react") ||
      (lang == JavaScript && id !in LanguageMap)
  {
    assert "javascript" + "react" == "javascriptreact";
    assert "typescript" + "react" == "typescriptreact";
  }
}

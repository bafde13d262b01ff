/**
  Rendering a generated array: the plain bracketed literal (`formatOutput`)
  and the variable declaration for a target language (`generateCodeSnippet`),
  with the per-language type-name table and the per-kind literal rules.
 */
module Formatting {
  import opened Strings
  import opened Decimal
  import opened Generators

  datatype Option<T> = None | Some(value: T)

  function Quote(s: string): string
  {
    "\"" + s + "\""
  }

  /** The text of each element, as `join` writes it. */
  function Texts(arr: seq<Value>): seq<string>
  {
    seq(|arr|, i requires 0 <= i < |arr| => ToText(arr[i]))
  }

  /** `arr.map(s => `"${s}"`)` */
  function QuotedTexts(arr: seq<Value>): seq<string>
  {
    seq(|arr|, i requires 0 <= i < |arr| => Quote(ToText(arr[i])))
  }

  /** No element's text contains a comma. */
  predicate CommaFree(arr: seq<Value>)
  {
    forall i | 0 <= i < |arr| :: ',' !in ToText(arr[i])
  }

  /** No element's text contains a double quote. */
  predicate QuoteFree(arr: seq<Value>)
  {
    forall i | 0 <= i < |arr| :: '"' !in ToText(arr[i])
  }

  // ---------------------------------------------------------------------------
  // Plain output

  /** `formatOutput(arr, type)` */
  function FormatOutput(arr: seq<Value>, kind: DataType): (r: string)
    ensures |r| >= 2 && r[0] == '[' && r[|r| - 1] == ']'
    ensures arr == [] ==> r == "[]"
  {
    if kind == String then "[" + Join(QuotedTexts(arr), ", ") + "]"
    else "[" + Join(Texts(arr), ", ") + "]"
  }

  /** `s` without its first and last character. */
  function Inner(s: string): string
    requires |s| >= 2
  {
    s[1..|s| - 1]
  }

  /**
    Cutting the plain output at each ", " inside the brackets gives back
    the elements in order: quoted for the string kind, bare otherwise.
   */
  lemma FormatOutputElements(arr: seq<Value>, kind: DataType)
    requires |arr| > 0 && CommaFree(arr)
    ensures Split(Inner(FormatOutput(arr, kind)), ", ") ==
      if kind == String then QuotedTexts(arr) else Texts(arr)
  {
    var parts := if kind == String then QuotedTexts(arr) else Texts(arr);
    var body := Join(parts, ", ");
    assert Inner("[" + body + "]") == body;
    assert forall i | 0 <= i < |arr| :: ',' !in parts[i] by {
      forall i | 0 <= i < |arr| ensures ',' !in parts[i] {
        assert ',' !in ToText(arr[i]);
      }
    }
    SplitJoin(parts, ", ");
  }

  /** The plain output holds a double quote exactly when it lists strings, provided no element carries one itself. */
  lemma FormatOutputQuotes(arr: seq<Value>, kind: DataType)
    requires QuoteFree(arr)
    ensures '"' in FormatOutput(arr, kind) <==> kind == String && |arr| > 0
  {
    var parts := if kind == String then QuotedTexts(arr) else Texts(arr);
    JoinContains(parts, ", ", '"');
    var r := FormatOutput(arr, kind);
    assert r == "[" + Join(parts, ", ") + "]";
    assert '"' in r <==> '"' in Join(parts, ", ");
    if kind == String && |arr| > 0 {
      assert parts[0][0] == '"';
    }
    if kind != String {
      assert forall i | 0 <= i < |parts| :: '"' !in parts[i];
    }
  }

  // ---------------------------------------------------------------------------
  // Code snippets

  /** The `typeMap` table: the element type each language's declaration names. */
  function TypeName(lang: Language, kind: DataType): (t: string)
    ensures t == "" <==> lang == JavaScript || lang == Python
    ensures lang == C && kind == Bool ==> t == "int"
  {
    match lang
    case JavaScript => ""
    case TypeScript =>
      (match kind case Int => "number" case Float => "number" case Double => "number" case String => "string" case Bool => "boolean")
    case Python => ""
    case Java =>
      (match kind case Int => "int" case Float => "float" case Double => "double" case String => "String" case Bool => "boolean")
    case CSharp =>
      (match kind case Int => "int" case Float => "float" case Double => "double" case String => "string" case Bool => "bool")
    case Cpp =>
      (match kind case Int => "int" case Float => "float" case Double => "double" case String => "std::string" case Bool => "bool")
    case C =>
      (match kind case Int => "int" case Float => "float" case Double => "double" case String => "const char*" case Bool => "int")
  }

  /** `!["javascript", "typescript", "python"].includes(language)`: the languages whose float list ends in `f`. */
  predicate Suffixed(lang: Language)
  {
    lang != JavaScript && lang != TypeScript && lang != Python
  }

  /** `formattedValues`: the element list placed between the brackets or braces. */
  function SnippetValues(arr: seq<Value>, kind: DataType, lang: Language): string
  {
    if kind == String then Join(QuotedTexts(arr), ", ")
    else if kind == Bool && lang == C then
      Join(seq(|arr|, i requires 0 <= i < |arr| => if Truthy(arr[i]) then "1" else "0"), ", ")
    else
      Join(Texts(arr), if kind == Float then "f, " else ", ") + (if kind == Float && Suffixed(lang) then "f" else "")
  }

  /** The per-language declaration template around `values`. */
  function Declaration(lang: Language, kind: DataType, values: string): string
  {
    match lang
    case JavaScript => "const arr = [" + values + "];"
    case TypeScript => "const arr: " + TypeName(TypeScript, kind) + "[] = [" + values + "];"
    case Python => "arr = [" + values + "]"
    case Java => TypeName(Java, kind) + "[] arr = {" + values + "};"
    case CSharp => TypeName(CSharp, kind) + "[] arr = {" + values + "};"
    case Cpp => TypeName(Cpp, kind) + " arr[] = {" + values + "};"
    case C => TypeName(C, kind) + " arr[] = {" + values + "};"
  }

  /** `generateCodeSnippet(arr, type, language)` */
  function GenerateCodeSnippet(arr: seq<Value>, kind: DataType, lang: Language): string
  {
    Declaration(lang, kind, SnippetValues(arr, kind, lang))
  }

  /** What each language's declaration puts before the element list. */
  function Opening(lang: Language, kind: DataType): string
  {
    match lang
    case JavaScript => "const arr = ["
    case TypeScript => "const arr: " + TypeName(lang, kind) + "[] = ["
    case Python => "arr = ["
    case Java => TypeName(lang, kind) + "[] arr = {"
    case CSharp => TypeName(lang, kind) + "[] arr = {"
    case Cpp => TypeName(lang, kind) + " arr[] = {"
    case C => TypeName(lang, kind) + " arr[] = {"
  }

  /** What each language's declaration puts after the element list. */
  function Closing(lang: Language): string
  {
    match lang
    case JavaScript => "];"
    case TypeScript => "];"
    case Python => "]"
    case Java => "};"
    case CSharp => "};"
    case Cpp => "};"
    case C => "};"
  }

  /**
    The literal the snippet writes for one element: strings quoted, booleans
    as 1 or 0 in C, and floats followed by `f`, except the last float in a
    language that is not suffixed.
   */
  function Literal(v: Value, kind: DataType, lang: Language, last: bool): string
  {
    if kind == String then Quote(ToText(v))
    else if kind == Bool && lang == C then (if Truthy(v) then "1" else "0")
    else if kind == Float && (Suffixed(lang) || !last) then ToText(v) + "f"
    else ToText(v)
  }

  function Literals(arr: seq<Value>, kind: DataType, lang: Language): seq<string>
  {
    seq(|arr|, i requires 0 <= i < |arr| => Literal(arr[i], kind, lang, i == |arr| - 1))
  }

  /** Reads a snippet back: checks the language's template and cuts the element list at each ", ". */
  function DecodeSnippet(s: string, kind: DataType, lang: Language): Option<seq<string>>
  {
    var o := Opening(lang, kind);
    var c := Closing(lang);
    if |o| + |c| <= |s| && s[..|o|] == o && s[|s| - |c|..] == c then
      Some(Split(s[|o|..|s| - |c|], ", "))
    else None
  }

  lemma DeclarationLayout(lang: Language, kind: DataType, values: string)
    ensures Declaration(lang, kind, values) == Opening(lang, kind) + values + Closing(lang)
  {
  }

  /** The element list `formattedValues` builds is the per-element literals joined by ", ". */
  lemma SnippetValuesLiterals(arr: seq<Value>, kind: DataType, lang: Language)
    requires |arr| > 0
    ensures SnippetValues(arr, kind, lang) == Join(Literals(arr, kind, lang), ", ")
  {
    if kind == String {
      assert Literals(arr, kind, lang) == QuotedTexts(arr);
    } else if kind == Bool && lang == C {
      assert Literals(arr, kind, lang) == seq(|arr|, i requires 0 <= i < |arr| => if Truthy(arr[i]) then "1" else "0");
    } else if kind == Float {
      var xs := Texts(arr);
      JoinWithSuffixedSeparator(xs, "f", ", ", Suffixed(lang));
      assert "f" + ", " == "f, ";
      var lits := seq(|xs|, i requires 0 <= i < |xs| => xs[i] + (if Suffixed(lang) || i < |xs| - 1 then "f" else ""));
      forall i | 0 <= i < |arr| ensures Literals(arr, kind, lang)[i] == lits[i] {
        if !(Suffixed(lang) || i < |xs| - 1) {
          assert xs[i] + "" == xs[i];
        }
      }
      assert Literals(arr, kind, lang) == lits;
    } else {
      assert Literals(arr, kind, lang) == Texts(arr);
    }
  }

  lemma LiteralCommaFree(v: Value, kind: DataType, lang: Language, last: bool)
    requires ',' !in ToText(v)
    ensures ',' !in Literal(v, kind, lang, last)
  {
  }

  /**
    A snippet reads back as its language's template around exactly the
    per-element literals, in order, for every kind and language.
   */
  lemma SnippetRoundTrip(arr: seq<Value>, kind: DataType, lang: Language)
    requires |arr| > 0 && CommaFree(arr)
    ensures DecodeSnippet(GenerateCodeSnippet(arr, kind, lang), kind, lang) == Some(Literals(arr, kind, lang))
  {
    var lits := Literals(arr, kind, lang);
    var values := Join(lits, ", ");
    SnippetValuesLiterals(arr, kind, lang);
    DeclarationLayout(lang, kind, values);
    TemplateSlices(Opening(lang, kind), values, Closing(lang));
    LiteralsCommaFree(arr, kind, lang);
    SplitJoin(lits, ", ");
  }

  lemma TemplateSlices(o: string, values: string, c: string)
    ensures var s := o + values + c;
      s[..|o|] == o && s[|s| - |c|..] == c && s[|o|..|s| - |c|] == values
  {
  }

  lemma LiteralsCommaFree(arr: seq<Value>, kind: DataType, lang: Language)
    requires CommaFree(arr)
    ensures forall i | 0 <= i < |arr| :: ',' !in Literals(arr, kind, lang)[i]
  {
    forall i | 0 <= i < |arr| ensures ',' !in Literals(arr, kind, lang)[i] {
      LiteralCommaFree(arr[i], kind, lang, i == |arr| - 1);
    }
  }

  /** With no elements the list is empty, except for floats in a suffixed language, where it is a lone `f`. */
  lemma SnippetOfEmpty(kind: DataType, lang: Language)
    ensures GenerateCodeSnippet([], kind, lang) ==
      Opening(lang, kind) + (if kind == Float && Suffixed(lang) then "f" else "") + Closing(lang)
  {
    DeclarationLayout(lang, kind, SnippetValues([], kind, lang));
  }

  // ---------------------------------------------------------------------------
  // What each kind's literals look like

  /** No comma and no double quote. */
  predicate Plain(w: string)
  {
    ',' !in w && '"' !in w
  }

  lemma Row1Plain(w: string) requires w in WordRow1 ensures Plain(w) {}
  lemma Row2Plain(w: string) requires w in WordRow2 ensures Plain(w) {}
  lemma Row3Plain(w: string) requires w in WordRow3 ensures Plain(w) {}
  lemma Row4Plain(w: string) requires w in WordRow4 ensures Plain(w) {}
  lemma Row5Plain(w: string) requires w in WordRow5 ensures Plain(w) {}
  lemma Row6Plain(w: string) requires w in WordRow6 ensures Plain(w) {}
  lemma Row7Plain(w: string) requires w in WordRow7 ensures Plain(w) {}
  lemma Row8Plain(w: string) requires w in WordRow8 ensures Plain(w) {}

  /** Every word of the bank is free of commas and double quotes, so quoting needs no escaping. */
  lemma WordsPlain(w: string)
    requires w in Words
    ensures Plain(w)
  {
    if w in WordRow1 { Row1Plain(w); } else if w in WordRow2 { Row2Plain(w); }
    else if w in WordRow3 { Row3Plain(w); } else if w in WordRow4 { Row4Plain(w); }
    else if w in WordRow5 { Row5Plain(w); } else if w in WordRow6 { Row6Plain(w); }
    else if w in WordRow7 { Row7Plain(w); } else { Row8Plain(w); }
  }

  lemma NumberTextPlain(scaled: int, places: nat)
    ensures ',' !in NumberText(scaled, places) && '"' !in NumberText(scaled, places)
  {
    var t := NumberText(scaled, places);
    assert NumericChars(t);
  }

  /** A value a generator can produce has text with no comma and no double quote. */
  lemma FitsPlain(v: Value, kind: DataType, allowNegative: bool)
    requires Fits(v, kind, allowNegative)
    ensures ',' !in ToText(v) && '"' !in ToText(v)
  {
    match v
    case Num(scaled, places) => NumberTextPlain(scaled, places);
    case Str(w) => WordsPlain(w);
    case Boolean(_) =>
  }

  /** Generated arrays can always be cut back into their elements. */
  lemma GeneratedArrayPlain(kind: DataType, count: nat, allowNegative: bool, rand: nat -> Draw)
    ensures CommaFree(GenerateArray(kind, count, allowNegative, rand))
    ensures QuoteFree(GenerateArray(kind, count, allowNegative, rand))
  {
    var arr := GenerateArray(kind, count, allowNegative, rand);
    forall i | 0 <= i < |arr| ensures ',' !in ToText(arr[i]) && '"' !in ToText(arr[i]) {
      FitsPlain(arr[i], kind, allowNegative);
    }
  }

  /**
    For any generated array, the plain output and the snippet in any language
    read back as the elements, and the snippet's literals, in order.
   */
  lemma GeneratedOutputsRoundTrip(kind: DataType, count: nat, allowNegative: bool, rand: nat -> Draw, lang: Language)
    requires count > 0
    ensures var arr := GenerateArray(kind, count, allowNegative, rand);
      Split(Inner(FormatOutput(arr, kind)), ", ") == (if kind == String then QuotedTexts(arr) else Texts(arr)) &&
      DecodeSnippet(GenerateCodeSnippet(arr, kind, lang), kind, lang) == Some(Literals(arr, kind, lang)) &&
      DecodeSnippet(IntendedCodeSnippet(arr, kind, lang), kind, lang) == Some(IntendedLiterals(arr, kind, lang))
  {
    GeneratedArrayPlain(kind, count, allowNegative, rand);
    var arr := GenerateArray(kind, count, allowNegative, rand);
    FormatOutputElements(arr, kind);
    SnippetRoundTrip(arr, kind, lang);
    IntendedSnippetRoundTrip(arr, kind, lang);
  }

  /** `l` without a trailing `f`. */
  function DropSuffix(l: string): string
  {
    if |l| > 0 && l[|l| - 1] == 'f' then l[..|l| - 1] else l
  }

  predicate EndsWithF(l: string)
  {
    |l| > 0 && l[|l| - 1] == 'f'
  }

  /**
    Float literals: in Java, C#, C++ and C every literal carries an `f`; in
    JavaScript, TypeScript and Python every literal but the last does.
    Without its `f` each literal reads back as the generated value.
   */
  lemma FloatLiterals(arr: seq<Value>, lang: Language)
    requires forall i | 0 <= i < |arr| :: arr[i].Num?
    ensures forall i | 0 <= i < |arr| ::
      (EndsWithF(Literals(arr, Float, lang)[i]) <==> Suffixed(lang) || i < |arr| - 1) &&
      ParseNumber(DropSuffix(Literals(arr, Float, lang)[i]), arr[i].places) == arr[i].scaled
  {
    forall i | 0 <= i < |arr|
      ensures EndsWithF(Literals(arr, Float, lang)[i]) <==> Suffixed(lang) || i < |arr| - 1
      ensures ParseNumber(DropSuffix(Literals(arr, Float, lang)[i]), arr[i].places) == arr[i].scaled
    {
      var suffixed := Suffixed(lang) || i < |arr| - 1;
      assert Literals(arr, Float, lang)[i] == Literal(arr[i], Float, lang, i == |arr| - 1);
      FloatLiteral(arr[i], lang, i == |arr| - 1);
      SuffixedNumber(arr[i], suffixed);
    }
  }

  lemma FloatLiteral(v: Value, lang: Language, last: bool)
    ensures Literal(v, Float, lang, last) == if Suffixed(lang) || !last then ToText(v) + "f" else ToText(v)
  {
  }

  /** A number's text with or without an `f`: it ends in `f` exactly when one was added, and without it reads back as the number. */
  lemma SuffixedNumber(v: Value, suffixed: bool)
    requires v.Num?
    ensures var l := if suffixed then ToText(v) + "f" else ToText(v);
      (EndsWithF(l) <==> suffixed) && ParseNumber(DropSuffix(l), v.places) == v.scaled
  {
    var t := ToText(v);
    NumberTextRoundTrip(v.scaled, v.places);
    if suffixed {
      assert (t + "f")[..|t|] == t;
    }
  }

  /** Whole numbers and doubles are written bare, reading back as the generated values. */
  lemma PlainNumberLiterals(arr: seq<Value>, kind: DataType, lang: Language)
    requires kind == Int || kind == Double
    requires forall i | 0 <= i < |arr| :: arr[i].Num?
    ensures forall i | 0 <= i < |arr| ::
      !EndsWithF(Literals(arr, kind, lang)[i]) &&
      ParseNumber(Literals(arr, kind, lang)[i], arr[i].places) == arr[i].scaled
  {
    forall i | 0 <= i < |arr|
      ensures !EndsWithF(Literals(arr, kind, lang)[i])
      ensures ParseNumber(Literals(arr, kind, lang)[i], arr[i].places) == arr[i].scaled
    {
      assert Literals(arr, kind, lang)[i] == ToText(arr[i]);
      SuffixedNumber(arr[i], false);
    }
  }

  /** Booleans are written `1` and `0` in C and `true` and `false` elsewhere. */
  lemma BoolLiterals(arr: seq<Value>, lang: Language)
    requires forall i | 0 <= i < |arr| :: arr[i].Boolean?
    ensures forall i | 0 <= i < |arr| ::
      Literals(arr, Bool, lang)[i] == (if lang == C then (if arr[i].b then "1" else "0") else (if arr[i].b then "true" else "false"))
  {
  }

  /** Strings are written in double quotes in every language, with nothing else added. */
  lemma StringLiterals(arr: seq<Value>, lang: Language)
    requires forall i | 0 <= i < |arr| :: arr[i].Str?
    ensures forall i | 0 <= i < |arr| ::
      var l := Literals(arr, String, lang)[i];
      |l| >= 2 && l[0] == '"' && l[|l| - 1] == '"' && Inner(l) == arr[i].s
  {
  }

  /** A small boolean sample. */
  const BoolSample: seq<Value> := [Boolean(true), Boolean(false), Boolean(true)]

  lemma BoolSampleTexts()
    ensures Join(Texts(BoolSample), ", ") == "true, false, true"
  {
    var texts := ["true", "false", "true"];
    assert Texts(BoolSample) == texts;
    assert Join(texts[1..], ", ") == "false, true";
  }

  lemma BoolSampleBits()
    ensures SnippetValues(BoolSample, Bool, C) == "1, 0, 1"
  {
    var bits := ["1", "0", "1"];
    assert seq(|BoolSample|, i requires 0 <= i < |BoolSample| => if Truthy(BoolSample[i]) then "1" else "0") == bits;
    assert Join(bits[1..], ", ") == "0, 1";
  }

  /** The sample as plain output, and as a C declaration, where booleans become 1 and 0. */
  lemma BoolExample()
    ensures FormatOutput(BoolSample, Bool) == "[true, false, true]"
    ensures GenerateCodeSnippet(BoolSample, Bool, C) == "int arr[] = {1, 0, 1};"
  {
    BoolSampleTexts();
    BoolSampleBits();
  }

  // ---------------------------------------------------------------------------
  // The intended snippet: the same templates, with the two literal defects removed

  /**
    The element literal with the two defects of `generateCodeSnippet` removed:
    floats carry `f` exactly in the languages whose float literals take that
    suffix, and Python booleans are capitalised. A whole float is still written
    without a point (`12f`), as the source writes it.
   */
  function IntendedLiteral(v: Value, kind: DataType, lang: Language): string
  {
    if kind == String then Quote(ToText(v))
    else if kind == Bool && lang == C then (if Truthy(v) then "1" else "0")
    else if kind == Bool && lang == Python then (if Truthy(v) then "True" else "False")
    else if kind == Float && Suffixed(lang) then ToText(v) + "f"
    else ToText(v)
  }

  function IntendedLiterals(arr: seq<Value>, kind: DataType, lang: Language): seq<string>
  {
    seq(|arr|, i requires 0 <= i < |arr| => IntendedLiteral(arr[i], kind, lang))
  }

  /** The snippet `generateCodeSnippet` evidently means to produce. */
  function IntendedCodeSnippet(arr: seq<Value>, kind: DataType, lang: Language): string
  {
    Declaration(lang, kind, Join(IntendedLiterals(arr, kind, lang), ", "))
  }

  lemma IntendedLiteralsCommaFree(arr: seq<Value>, kind: DataType, lang: Language)
    requires CommaFree(arr)
    ensures forall i | 0 <= i < |arr| :: ',' !in IntendedLiterals(arr, kind, lang)[i]
  {
    forall i | 0 <= i < |arr| ensures ',' !in IntendedLiterals(arr, kind, lang)[i] {
      assert ',' !in ToText(arr[i]);
    }
  }

  /** The intended snippet reads back as its template around the intended literals. */
  lemma IntendedSnippetRoundTrip(arr: seq<Value>, kind: DataType, lang: Language)
    requires |arr| > 0 && CommaFree(arr)
    ensures DecodeSnippet(IntendedCodeSnippet(arr, kind, lang), kind, lang) == Some(IntendedLiterals(arr, kind, lang))
  {
    var lits := IntendedLiterals(arr, kind, lang);
    var values := Join(lits, ", ");
    DeclarationLayout(lang, kind, values);
    TemplateSlices(Opening(lang, kind), values, Closing(lang));
    IntendedLiteralsCommaFree(arr, kind, lang);
    SplitJoin(lits, ", ");
  }

  /** An empty array gives an empty list in every language. */
  lemma IntendedSnippetOfEmpty(kind: DataType, lang: Language)
    ensures IntendedCodeSnippet([], kind, lang) == Opening(lang, kind) + Closing(lang)
  {
    DeclarationLayout(lang, kind, "");
  }

  /** Every float literal ends in `f` exactly when the language is one with suffixed float literals. */
  lemma IntendedFloatSuffix(arr: seq<Value>, lang: Language)
    requires forall i | 0 <= i < |arr| :: arr[i].Num?
    ensures forall i | 0 <= i < |arr| ::
      (EndsWithF(IntendedLiterals(arr, Float, lang)[i]) <==> Suffixed(lang)) &&
      ParseNumber(DropSuffix(IntendedLiterals(arr, Float, lang)[i]), arr[i].places) == arr[i].scaled
  {
    forall i | 0 <= i < |arr|
      ensures EndsWithF(IntendedLiterals(arr, Float, lang)[i]) <==> Suffixed(lang)
      ensures ParseNumber(DropSuffix(IntendedLiterals(arr, Float, lang)[i]), arr[i].places) == arr[i].scaled
    {
      assert IntendedLiterals(arr, Float, lang)[i] == if Suffixed(lang) then ToText(arr[i]) + "f" else ToText(arr[i]);
      SuffixedNumber(arr[i], Suffixed(lang));
    }
  }

  /** Python booleans are written `True` and `False`. */
  lemma IntendedPythonBools(arr: seq<Value>)
    requires forall i | 0 <= i < |arr| :: arr[i].Boolean?
    ensures forall i | 0 <= i < |arr| ::
      IntendedLiterals(arr, Bool, Python)[i] == (if arr[i].b then "True" else "False")
  {
  }

  /** Wherever the two defects do not arise, the source's snippet is already the intended one. */
  lemma IntendedAgreesElsewhere(arr: seq<Value>, kind: DataType, lang: Language)
    requires |arr| > 0
    requires !(kind == Float && !Suffixed(lang)) && !(kind == Bool && lang == Python)
    ensures GenerateCodeSnippet(arr, kind, lang) == IntendedCodeSnippet(arr, kind, lang)
  {
    SnippetValuesLiterals(arr, kind, lang);
    assert Literals(arr, kind, lang) == IntendedLiterals(arr, kind, lang);
  }

  lemma FloatPairValues(x: Value, y: Value)
    ensures SnippetValues([x, y], Float, JavaScript) == ToText(x) + "f, " + ToText(y)
  {
    assert Texts([x, y]) == [ToText(x), ToText(y)];
    JoinPair(ToText(x), ToText(y), "f, ");
    var values := ToText(x) + "f, " + ToText(y);
    assert values + "" == values;
  }

  /** As written, a JavaScript float array leaks `f` into every literal but the last: `[1.5f, 2.5]` for 1.5 and 2.5. */
  lemma FloatSuffixLeaks(x: Value, y: Value)
    ensures GenerateCodeSnippet([x, y], Float, JavaScript) == "const arr = [" + (ToText(x) + "f, " + ToText(y)) + "];"
  {
    FloatPairValues(x, y);
  }

  lemma IntendedFloatPairValues(x: Value, y: Value)
    ensures Join(IntendedLiterals([x, y], Float, JavaScript), ", ") == ToText(x) + ", " + ToText(y)
  {
    assert IntendedLiterals([x, y], Float, JavaScript) == [ToText(x), ToText(y)] by {
      assert IntendedLiteral(x, Float, JavaScript) == ToText(x);
      assert IntendedLiteral(y, Float, JavaScript) == ToText(y);
    }
    JoinPair(ToText(x), ToText(y), ", ");
  }

  /** Intended, no JavaScript float literal carries an `f`. */
  lemma IntendedFloatPair(x: Value, y: Value)
    ensures IntendedCodeSnippet([x, y], Float, JavaScript) == "const arr = [" + (ToText(x) + ", " + ToText(y)) + "];"
  {
    IntendedFloatPairValues(x, y);
  }

  /** As written, Python booleans are spelled in lower case; intended, capitalised. */
  lemma PythonBoolsLowercase()
    ensures GenerateCodeSnippet([Boolean(true), Boolean(false)], Bool, Python) == "arr = [true, false]"
    ensures IntendedCodeSnippet([Boolean(true), Boolean(false)], Bool, Python) == "arr = [True, False]"
  {
  }

  /** As written, an empty float array in Java holds a lone `f`; intended, nothing. */
  lemma EmptyFloatLoneSuffix()
    ensures GenerateCodeSnippet([], Float, Java) == "float[] arr = {f};"
    ensures IntendedCodeSnippet([], Float, Java) == "float[] arr = {};"
  {
  }
}

# array-ipsum core in Dafny

array-ipsum is an editor extension that inserts sample arrays into source code.
Its core, `src/generators.ts`, does four things:

- It draws an array of `count` random values of one kind: integers, floats with
  two decimals, doubles with six decimals, words from a lorem-ipsum bank, or
  booleans. Numbers are drawn from -1000..1000, or from 0..1000 when negatives
  are not allowed.
- It renders the array as a plain bracketed list (`formatOutput`).
- It renders the array as a variable declaration for one of seven languages
  (`generateCodeSnippet`): JavaScript, TypeScript, Python, Java, C#, C++ and C.
- It maps an editor's language identifier to one of those seven languages
  (`mapLanguageId`).

The source is pure apart from `Math.random`. The model is therefore written with
datatypes, functions and lemmas. Each random draw is an input: `rand(i)` is the
i-th value `Math.random()` returns, a real number in [0, 1).

The files:

- `strings.dfy`: JavaScript's `join`, and a `Split` that undoes it.
- `decimal.dfy`: JavaScript's number-to-text rendering for the generated values,
  and a parser that reads that text back.
- `generators.dfy`: the word bank, the five generators and `generateArray`.
- `formatting.dfy`: `formatOutput`, `generateCodeSnippet`, and the corrected snippet
  described under Findings.
- `languages.dfy`: `mapLanguageId`.

Numbers are exact. A float or a double is a `Num(scaled, places)`, where `scaled`
counts units of 10^-places.

`toFixed` is modelled on exact reals. It rounds to the nearest unit, and a tie
goes away from zero (it sets the sign aside first, then takes the larger
candidate).

The text `join` writes for a number is modelled concretely:

- an optional minus sign;
- the integer part;
- when the fraction is not zero, a point and the fraction digits with trailing
  zeros dropped.

So 12.50 is written `12.5`, and a value that rounds to zero from below is
written `0`.

### Facts about the code worth knowing

- The word bank has 62 words. They are copied in the source's order, one
  constant per source line.
- Every draw is below 1, but `toFixed` can round it up to exactly 1000, so the
  range of floats and doubles is closed (`Generators.RoundingReachesMax`).
- `mapLanguageId` sends every identifier outside its table to JavaScript
  (apart from the inherited-key quirk listed under Left out).

## Model

| member | source | states |
|---|---|---|
| Strings.Join | src/generators.ts:78-80 | `Array.prototype.join`. It has no contract of its own; its properties are stated by `SplitJoin`, `JoinContains` and `JoinWithSuffixedSeparator`. |
| Strings.SplitJoin | src/generators.ts:76-81 | For a non-empty list of parts: if no element contains the separator's first character, cutting a `join` at each separator gives back exactly the joined elements, in order. |
| Strings.JoinContains | src/generators.ts:76-81 | A character occurs in a `join` exactly when it occurs in some element, or in the separator between two elements. |
| Strings.JoinWithSuffixedSeparator | src/generators.ts:105-106 | For a non-empty list: joining with `"f" + sep` and then appending `f` only when asked is the same as suffixing every element with `f` and joining with `sep`. When the trailing `f` is not appended, the last element gets no `f`. |
| Decimal.NumberText | src/generators.ts:76-81 | The text of a number is not empty, ends in a digit, and holds only digits, a minus sign and a point; a minus sign can only come first, and there is at most one point. |
| Decimal.NumberTextRoundTrip | src/generators.ts:76-81 | The text of any number reads back as exactly that number. |
| Decimal.NumberTextFractionDigits | src/generators.ts:28-41 | A value with two (or six) places is written with at most two (or six) fraction digits, and with none exactly when it is whole. |
| Decimal.NumberTextExamples | src/generators.ts:28-32 | 12.50 is written `12.5`, -0.05 is written `-0.05`, and 1000.00 is written `1000`. |
| Decimal.NumberTextCanonical | src/generators.ts:76-81 | The text is JavaScript's shortest form: a minus sign exactly for a negative value, no negative zero, no leading zero in the integer part, and no trailing zero in a fraction. |
| Generators.ToText | src/generators.ts:78-80 | JavaScript's `String(v)` of an element, which `join` and template literals apply. It has no contract of its own; `NumberTextRoundTrip`, `NumberTextCanonical`, `FitsPlain` and `StringLiterals` state its properties. |
| Generators.IntDraw | src/generators.ts:19-23 | `floor(r*(max-min+1))+min` lies in [min, max] whenever min <= max. |
| Generators.FixedDraw | src/generators.ts:28-41 | `toFixed(places)` of `r*(max-min)+min` lies in [min, max], in units of 10^-places, whenever min <= max. |
| Generators.RoundHalfAwayBetween | src/generators.ts:28-41 | Rounding a real between two integers stays between them. |
| Generators.Pick | src/generators.ts:46-50 | `bank[floor(r*bank.length)]` is a member of the bank. |
| Generators.GenerateInts | src/generators.ts:19-23 | Exactly `count` whole numbers, each in [min, max]. |
| Generators.GenerateFloats | src/generators.ts:28-32 | Exactly `count` numbers with two places, each in [min, max]. |
| Generators.GenerateDoubles | src/generators.ts:37-41 | Exactly `count` numbers with six places, each in [min, max]. |
| Generators.WordDraw | src/generators.ts:48 | A word drawn from the bank is always one of the bank's words. |
| Generators.GenerateStrings | src/generators.ts:46-50 | Exactly `count` words, each from the word bank. |
| Generators.GenerateBools | src/generators.ts:55-57 | Exactly `count` booleans. Element i is true exactly when draw i is below one half. |
| Generators.GenerateArray | src/generators.ts:62-71 | Exactly `count` elements, each of the requested kind. Numbers lie in [-1000, 1000], or in [0, 1000] without negatives, with 0, 2 or 6 places. Words are from the bank. |
| Generators.GenerateArrayElement | src/generators.ts:62-71 | Element i of a generated array depends on draw i alone. |
| Generators.PreimageExact | src/generators.ts:62-71 | Every value that fits a kind and sign policy is produced from some single draw. |
| Generators.GenerateArrayOnto | src/generators.ts:62-71 | Every array whose elements all fit a kind and sign policy is produced by some sequence of draws. With the ensures of `GenerateArray`, the arrays it can return are exactly these. |
| Generators.RoundingReachesMax | src/generators.ts:28-41 | A draw below 1 can still produce exactly 1000, as a float and as a double. |
| Formatting.WordsPlain | src/generators.ts:2-11 | No word of the bank contains a comma or a double quote. |
| Formatting.FitsPlain | src/generators.ts:62-71 | The text of any value a generator can produce contains no comma and no double quote. |
| Formatting.GeneratedArrayPlain | src/generators.ts:62-71 | No element text of a generated array contains a comma or a double quote. |
| Formatting.FormatOutput | src/generators.ts:76-81 | The output starts with `[` and ends with `]`. It is `[]` for an empty array. |
| Formatting.FormatOutputElements | src/generators.ts:76-81 | For a non-empty array whose element texts contain no comma (every generated array, by `GeneratedArrayPlain`): inside the brackets, cutting at each `", "` gives the element texts in order: double-quoted for strings, bare otherwise. |
| Formatting.FormatOutputQuotes | src/generators.ts:76-81 | Assume no element carries a double quote. Then the output contains one exactly when the kind is string and the array is not empty. |
| Formatting.TypeName | src/generators.ts:91-99 | The type name is empty exactly for JavaScript and Python. The C boolean type is `int`. |
| Formatting.Declaration | src/generators.ts:108-122 | The seven declaration templates. It has no contract of its own; `DeclarationLayout` states its shape. |
| Formatting.DeclarationLayout | src/generators.ts:108-122 | Each language's declaration is that language's opening, then the values, then its closing. |
| Formatting.SnippetValues | src/generators.ts:101-106 | `formattedValues`. It has no contract of its own; `SnippetValuesLiterals`, `SnippetOfEmpty`, `FloatLiterals`, `PlainNumberLiterals`, `BoolLiterals` and `StringLiterals` state its properties. |
| Formatting.SnippetValuesLiterals | src/generators.ts:101-106 | For a non-empty array, the value list is the per-element literals joined by `", "`. Strings are quoted. C booleans are `1` or `0`. Floats carry `f`, except the last one in JavaScript, TypeScript and Python. |
| Formatting.GenerateCodeSnippet | src/generators.ts:86-126 | `generateCodeSnippet`. It has no contract of its own; `SnippetRoundTrip`, `SnippetValuesLiterals`, `SnippetOfEmpty` and `GeneratedOutputsRoundTrip` state its properties. |
| Formatting.SnippetRoundTrip | src/generators.ts:86-126 | For any kind and language, and a non-empty array whose element texts contain no comma (every generated array, by `GeneratedArrayPlain`; the empty case is `SnippetOfEmpty`), the snippet reads back as that language's template around exactly the per-element literals, in order. |
| Formatting.SnippetOfEmpty | src/generators.ts:101-124 | An empty array gives an empty value list, except floats in Java, C#, C++ and C, where the list is a lone `f`. |
| Formatting.GeneratedOutputsRoundTrip | src/generators.ts:62-126 | For any non-empty generated array (count at least 1; the empty case is `FormatOutput` and `SnippetOfEmpty`), the plain output reads back as its element texts. The snippet and the corrected snippet, in any language, read back as their literals. |
| Formatting.FloatLiterals | src/generators.ts:105-106 | A float literal ends in `f` exactly when the language is Java, C#, C++ or C, or the literal is not the last. Without its `f`, every literal reads back as its value. |
| Formatting.PlainNumberLiterals | src/generators.ts:105-106 | Integer and double literals never end in `f`. Each reads back as its value. |
| Formatting.BoolLiterals | src/generators.ts:103-105 | Boolean literals are `1`/`0` in C and `true`/`false` in every other language. |
| Formatting.StringLiterals | src/generators.ts:101-102 | String literals are the word in double quotes, with nothing else added, in every language. |
| Formatting.BoolExample | src/generators.ts:76-126 | `[true, false, true]` is shown as `[true, false, true]`, and in C as `int arr[] = {1, 0, 1};`. |
| Formatting.FloatSuffixLeaks | src/generators.ts:105-106 | As written: the JavaScript snippet of two floats x, y is `const arr = [xf, y];`. |
| Formatting.PythonBoolsLowercase | src/generators.ts:103-112 | As written: the Python snippet of true, false is `arr = [true, false]`. |
| Formatting.EmptyFloatLoneSuffix | src/generators.ts:105-106 | As written: the Java snippet of an empty float array is `float[] arr = {f};`. |
| Formatting.IntendedFloatSuffix | src/generators.ts:105-106 | Corrected: a float literal ends in `f` exactly in Java, C#, C++ and C, for every element. Without its `f` it reads back as its value. |
| Formatting.IntendedFloatPair | src/generators.ts:105-108 | Corrected: the JavaScript snippet of two floats x, y is `const arr = [x, y];`. |
| Formatting.IntendedPythonBools | src/generators.ts:103-112 | Corrected: Python booleans are `True` and `False`. |
| Formatting.IntendedSnippetOfEmpty | src/generators.ts:101-124 | Corrected: an empty array gives an empty value list in every language and for every kind. |
| Formatting.IntendedCodeSnippet | src/generators.ts:86-126 | The corrected snippet. It has no contract of its own; `IntendedSnippetRoundTrip`, `IntendedFloatSuffix`, `IntendedPythonBools`, `IntendedSnippetOfEmpty` and `IntendedAgreesElsewhere` state its properties. |
| Formatting.IntendedSnippetRoundTrip | src/generators.ts:86-126 | Corrected: for a non-empty array whose element texts contain no comma, the snippet reads back as its template around the corrected literals, in order. |
| Formatting.IntendedAgreesElsewhere | src/generators.ts:86-126 | Apart from floats in JavaScript, TypeScript and Python, and booleans in Python, the corrected snippet equals the source's snippet for every non-empty array. |
| LanguageIds.MapLanguageId | src/generators.ts:131-144 | `mapLanguageId`. It has no contract of its own; `MapLanguageName` and `MapLanguageIdExactly` characterise it. |
| LanguageIds.MapLanguageName | src/generators.ts:131-144 | Each of the seven language names maps to its own language. |
| LanguageIds.MapLanguageIdExactly | src/generators.ts:131-144 | An identifier maps to a language exactly in three cases: it is the language's name; it is the `react` variant of the JavaScript or TypeScript name; or the language is JavaScript and the identifier is not one of the nine listed. |

## Left out

- `src/extension.ts` is not part of this model. It is editor plumbing: command registration, prompts, validation of the count to 1..1000, reading the editor's language, inserting text, the clipboard fallback, and notifications.
- `Math.random` is not modelled as a source. Its successive results are the input `rand: nat -> Draw`.
- Generators.IntDraw: computes `r*(max-min+1)` on exact reals, not IEEE-754 doubles. Near an integer boundary the floor can differ from the double computation by one.
- Generators.Pick: computes `r*bank.length` on exact reals, not IEEE-754 doubles. Near an integer boundary the index can differ from the double computation by one.
- The default arguments are not modelled as defaults. These are `min = -1000` and `max = 1000` of `generateInts`, `generateFloats` and `generateDoubles`, and `allowNegative = true` of `generateArray`. The generators take `min` and `max` explicitly, `generateArray` passes 1000 (`MaxValue`), and the caller always passes `allowNegative`.
- Generators.FixedDraw: computes on exact reals, not IEEE-754 doubles. The product `r*(max-min)+min` and `toFixed`'s choice between two neighbours can differ from the double computation by one unit in the last place.
- Decimal.NumberText: models JavaScript's number-to-text rendering only for the generated values. These have at most six places and magnitude at most 1000, and JavaScript writes them in plain decimal notation. Exponent notation is not modelled.
- `count` is a natural number. A negative or fractional count, which the extension never passes, is not modelled.
- The `default` branch of `generateCodeSnippet` (`src/generators.ts:123-124`) is not modelled. It returns `[<values>]`. It is reachable only through the inherited-key quirk of `mapLanguageId` described below, which is also left out, so `Language` is modelled as a closed datatype.
- LanguageIds.MapLanguageId: models the lookup table as a finite map. A JavaScript object also answers inherited keys such as `constructor` or `toString`, and for those keys the source returns that inherited member instead of `"javascript"`.
- A float with a whole value is written with a bare `f` suffix, such as `12f`. That is not a valid C or C++ float literal. The model reproduces the source's text and does not correct this.

## Findings

| source | as written | input that shows it | evidently intended | confidence | as-written member | corrected member |
|---|---|---|---|---|---|---|
| src/generators.ts:105-106 | Floats are joined with `"f, "` in every language, so in JavaScript, TypeScript and Python every float except the last gets an `f`. | floats 1.5 and 2.5 in JavaScript give `const arr = [1.5f, 2.5];` | No float literal carries `f` in JavaScript, TypeScript or Python: `const arr = [1.5, 2.5];` | high; not executed | Formatting.FloatSuffixLeaks | Formatting.IntendedFloatSuffix |
| src/generators.ts:103-112 | Python booleans are rendered by `join`, giving `true`/`false`. Python does not define these names. | true, false in Python give `arr = [true, false]` | `arr = [True, False]` | medium; not executed | Formatting.PythonBoolsLowercase | Formatting.IntendedPythonBools |
| src/generators.ts:105-106 | The trailing `f` is appended even when there are no elements. | an empty float array in Java gives `float[] arr = {f};` | `float[] arr = {};` | low (the extension asks for 1 to 1000 elements); not executed | Formatting.EmptyFloatLoneSuffix | Formatting.IntendedSnippetOfEmpty |

# JSON to Codable structs: a Dafny model

The Xcode source-editor extension JSONParser takes the JSON text in the
editor. It replaces that text with two things: a comment holding the
pretty-printed JSON, and Swift `struct Name: Codable { let field: Type ... }`
declarations, one for each named object shape in the document. This project
models the generator at the heart of the extension,
`JSONParserExtension/SourceEditorCommand.swift`, over an already-decoded JSON
tree:

- the key sanitiser `makeValidPropertyName` (module `Sanitizer`);
- the value classifier `getSwiftType` and the array field typer
  `getArrayType` (module `Classifier`);
- the key ordering of `collectNestedStructs`, i.e. `dict.sorted` by raw key
  (module `Sorting`);
- the recursive collector `collectNestedStructs` (module `Collector`). Its
  mutable processed-name set and struct list become an argument and a
  result.
- `generateAllStructs`, `generateResult` and the error-to-comment mapping of
  `parseJSON` (module `Render`). The decoder's outcome is an abstract
  `DecodeOutcome`.
- one worked example: the structs collected for a small object, the output
  text around them, and the lines of its root struct (module `Scenarios`).

Supporting modules:

- `JsonValue` holds the JSON tree, a size measure for termination, and the
  `Foundation` record.
- `Text` holds the string order used by the sort, joining, decimal
  rendering, and cutting a text into lines at line feeds.

The two platform functions the generator calls, `String.capitalized` and
`Character.isNumber`, have no Dafny counterpart. They are fields of a
`Foundation` value passed in. The lemmas that need something of them say
what:

- digits are numbers and `_` is not (`ValidIsNumber`);
- or they name a concrete capitalisation.

Three behaviours of the code are easy to misread:

- **Element names.** The element struct name is computed at :134 with
  `replacingOccurrences(of: "s$", with: "")`, without the
  regular-expression option. It removes the literal two-character text
  `s$`, in one left-to-right pass, and never strips a trailing `s`
  (`Classifier.TrailingSKept`). A field `users` therefore names its
  element struct `UsersElement` (`Classifier.UsersKeepsPlural`), while a
  key `users$` keeps its `$`, capitalises to `Users$` and gives
  `UserElement`.
- **Capitalisation.** Nested struct names (:98, :134) come from
  Foundation's `capitalized`, which capitalises every word, not just the
  first letter. The model keeps it as a parameter and assumes nothing more
  of it.
- **Digits.** The underscore prefix at :185 depends on
  `Character.isNumber` of the cleaned first character. That holds for any
  numeric character, not just the ASCII digits.

## Model

| member | source | states |
|---|---|---|
| `Sanitizer.MakeValidPropertyName` | JSONParserExtension/SourceEditorCommand.swift:179-190 | the name contains no space, `-` or `.`; its length is the key's, plus one exactly when the cleaned first character is numeric |
| `Sanitizer.Cleaned` | JSONParserExtension/SourceEditorCommand.swift:180-183 | the three chained replacements keep the length and turn each space, `-` and `.` into `_`, position by position, leaving every other character alone |
| `Sanitizer.CharactersKept` | JSONParserExtension/SourceEditorCommand.swift:180-189 | when the prefix is added the name starts with `_`; every key character sits, cleaned, at its own position behind it; the empty key gives the empty name |
| `Sanitizer.Idempotent` | JSONParserExtension/SourceEditorCommand.swift:179-190 | sanitising a sanitised name changes nothing (given `_` is not numeric) |
| `Sanitizer.DigitGetsUnderscore` | JSONParserExtension/SourceEditorCommand.swift:185-187 | a key starting with an ASCII digit always becomes `_` followed by the cleaned key |
| `Sanitizer.SeparatorsInterchangeable` | JSONParserExtension/SourceEditorCommand.swift:180-183 | keys that differ only in which separator stands at a position give the same name |
| `Sanitizer.PlainKeyUnchanged` | JSONParserExtension/SourceEditorCommand.swift:180-189 | a key with no separator and a non-numeric first character is used unchanged |
| `Classifier.SwiftType` | JSONParserExtension/SourceEditorCommand.swift:144-177 | the type text starts with `[` exactly for arrays and objects |
| `Classifier.SwiftTypeShape` | JSONParserExtension/SourceEditorCommand.swift:144-177 | the text is one of the five scalar names exactly when the value is neither array nor object, and is never `Any` |
| `Classifier.SwiftTypeTable` | JSONParserExtension/SourceEditorCommand.swift:144-177 | the table read both ways: `String` iff a string; `Bool` iff a boolean or a bool-flagged number; `Double` iff an unflagged number whose text has a `.`; `Int` iff an unflagged number without one; `String?` iff null; `[String: Any]` iff an object; `[Any]` iff the empty array |
| `Classifier.NeverAny` | JSONParserExtension/SourceEditorCommand.swift:171-175 | no decoded value, at any depth, falls through to `Any` |
| `Classifier.ArrayTypedByFirst` | JSONParserExtension/SourceEditorCommand.swift:164-168 | an array's type is `[` + its first element's type + `]`, whatever the later elements are |
| `Classifier.RemoveLiteralSDollar` | JSONParserExtension/SourceEditorCommand.swift:134 | removing the literal `s$` never lengthens the text, adds no character, and leaves a text without `$` unchanged |
| `Classifier.TrailingSKept` | JSONParserExtension/SourceEditorCommand.swift:134 | a trailing `s` survives the removal |
| `Classifier.AppendedLiteralRemoved` | JSONParserExtension/SourceEditorCommand.swift:134 | an appended `s$` is removed again, and nothing else changes |
| `Classifier.RemovalSplits` | JSONParserExtension/SourceEditorCommand.swift:134 | the removal works piece by piece across a boundary where no `s` waits for a `$` |
| `Classifier.SinglePass` | JSONParserExtension/SourceEditorCommand.swift:134 | the text is scanned once: `ss$` followed by anything becomes `s` followed by what that becomes, so `ss$$` gives `s$`, which a second removal would clear |
| `Classifier.ElementName` | JSONParserExtension/SourceEditorCommand.swift:134 | the element struct name ends with `Element`, and is the capitalised property name plus `Element` when that contains no `$` |
| `Classifier.UsersKeepsPlural` | JSONParserExtension/SourceEditorCommand.swift:134 | `users` capitalised as `Users` gives `UsersElement`, not `UserElement` |
| `Classifier.ArrayType` | JSONParserExtension/SourceEditorCommand.swift:125-142 | one object is queued exactly when the first element is an object, named by `ElementName`, and the type is `[` + that name + `]`; otherwise nothing is queued and the type is the classifier's text for the array |
| `Sorting.SortByKey` | JSONParserExtension/SourceEditorCommand.swift:94 | the members come out ordered by key, as a permutation of the input |
| `Sorting.SortAscending` | JSONParserExtension/SourceEditorCommand.swift:94 | with distinct keys the sorted keys strictly ascend |
| `Sorting.SortCharacterised` | JSONParserExtension/SourceEditorCommand.swift:94 | with distinct keys the sort result is the one strictly ascending rearrangement of the members |
| `Sorting.SortIgnoresDocumentOrder` | JSONParserExtension/SourceEditorCommand.swift:94 | any rearrangement of an object's members sorts to the same sequence, so the decoder's member order never reaches the output |
| `Text.LessIsLexicographic` | JSONParserExtension/SourceEditorCommand.swift:94 | the key order is the lexicographic order: a key comes first when it is a proper prefix of the other, or has the smaller character at the first position where they differ |
| `Collector.MemberField` | JSONParserExtension/SourceEditorCommand.swift:95-110 | the field is named by the sanitised key; an object gets the type `capitalized(name)` and is queued under that name; an array is typed and queued exactly as `ArrayType` does for the sanitised name: an array whose first element is an object gets `[ElementName]` and queues that element, any other array gets the classifier's text and queues nothing; any other value is typed by the classifier; the field refers to exactly the queued names |
| `Collector.Fields` | JSONParserExtension/SourceEditorCommand.swift:94-111 | one field per member, in member order; the queue is what each member queues, concatenated in member order; the names the fields refer to are exactly the queued names; every queued object comes from one of the members |
| `Collector.Collect` | JSONParserExtension/SourceEditorCommand.swift:83-123 | the processed set only grows and gains the name; an already processed name returns at once with nothing; the appended structs have distinct names, exactly the newly processed ones; every reference is processed; a new name's struct comes last, has one field per key, and every new name it refers to is declared before it |
| `Collector.CollectQueue` | JSONParserExtension/SourceEditorCommand.swift:115-120 | collecting the queue in order processes every queued name, keeps the appended names distinct and equal to the names added, and keeps every reference processed |
| `Collector.CollectFieldsFromTree` | JSONParserExtension/SourceEditorCommand.swift:83-123 | every struct collected for an object, not only its own, has the fields of the sorted members of an object claimed under that struct's own name: the object itself for the name it is collected under, or an object a member queues under that name, at any depth |
| `Collector.CollectQueueFieldsFromTree` | JSONParserExtension/SourceEditorCommand.swift:115-120 | every struct collected for a queue has the fields of the sorted members of an object claimed under that struct's own name within one of the queued objects |
| `Collector.OneStructPerNewName` | JSONParserExtension/SourceEditorCommand.swift:88-122 | the number of structs appended equals the number of names newly inserted into the processed set |
| `Collector.StructFollowsSortedKeys` | JSONParserExtension/SourceEditorCommand.swift:91-113 | with distinct keys, field i of the new struct is the field of the member with the i-th smallest raw key, named by its sanitised key |
| `Collector.StructFieldNames` | JSONParserExtension/SourceEditorCommand.swift:94-95 | the new struct's field names are the sanitised sorted keys, position by position |
| `Collector.CollidingKeysBothKept` | JSONParserExtension/SourceEditorCommand.swift:94-110 | two different keys that sanitise to the same name both yield a field of that name |
| `Collector.FirstClaimWins` | JSONParserExtension/SourceEditorCommand.swift:115-120 | of two queued objects with the same struct name, the first processed decides the struct; the second adds nothing and marks nothing |
| `Collector.SecondClaimIgnored` | JSONParserExtension/SourceEditorCommand.swift:88-122 | an object whose members queue two objects under one name gets its children from the first only, followed by its own struct; the second object's members reach no struct |
| `Collector.RootCollectionClosed` | JSONParserExtension/SourceEditorCommand.swift:71-81 | collecting from scratch ends with the root struct, with distinct names, and every struct referred to is declared |
| `Render.FieldLine` | JSONParserExtension/SourceEditorCommand.swift:99-109 | a property line is four spaces, `let`, the name, `: `, the type text and a line break; when neither name nor type holds a line break it is exactly one line |
| `Render.DeclText` | JSONParserExtension/SourceEditorCommand.swift:91-113 | a struct's text opens with `struct Name: Codable {` and a line break, and closes with `}` and a line break |
| `Render.DeclTextLines` | JSONParserExtension/SourceEditorCommand.swift:91-113 | with no line break inside the names and types, a struct's text is the line `struct Name: Codable {`, then one `    let name: Type` line per field in field order, then `}`, each ended by a line break |
| `Text.Join` | JSONParserExtension/SourceEditorCommand.swift:80 | joining no texts gives the empty text, one text gives itself, and a joined text starts with its first piece |
| `Text.JoinSnoc` | JSONParserExtension/SourceEditorCommand.swift:80 | joining one piece more appends the separator and that piece |
| `Text.JoinEndsWithLast` | JSONParserExtension/SourceEditorCommand.swift:80 | a joined text ends with its last piece |
| `Render.GenerateAllStructs` | JSONParserExtension/SourceEditorCommand.swift:71-81 | the structs of the root object are at least one, the last named by the root; the text starts with the first struct collected and ends with the root struct |
| `Render.GenerateResult` | JSONParserExtension/SourceEditorCommand.swift:53-69 | the output starts with the formatted-JSON comment and ends with the three-line use-case trailer; between them there is nothing unless there is a model; an object gets its `JSONModel` structs; an array of objects gets the count line, then the structs of its first element under `ArrayElement` |
| `Render.ResultDeclarations` | JSONParserExtension/SourceEditorCommand.swift:56-66 | when there is a model, its structs have distinct names, every referenced struct is declared, and the root struct is the last text before the trailer |
| `Text.NatToString` | JSONParserExtension/SourceEditorCommand.swift:60 | the count is written as at least one decimal digit, with no leading zero |
| `Text.ParseNatToString` | JSONParserExtension/SourceEditorCommand.swift:60 | the written digits read back as the count |
| `Render.ArrayLineCount` | JSONParserExtension/SourceEditorCommand.swift:60 | the count line carries the decimal text of the array's length, which reads back as that length |
| `Render.FixedComments` | JSONParserExtension/SourceEditorCommand.swift:33-44 | both fixed failure comments start with `// Error` and hold no line break |
| `Render.ThrownComment` | JSONParserExtension/SourceEditorCommand.swift:48-50 | the thrown-error comment starts with `// Error`, ends with the platform's description, and holds a line break only if the description does |
| `Render.ErrorComment` | JSONParserExtension/SourceEditorCommand.swift:30-51 | every failure comment starts with `// Error`; it fits on one line unless a thrown description spans lines |
| `Render.ParseJson` | JSONParserExtension/SourceEditorCommand.swift:30-51 | success gives the generated text, failure the error comment, and the output starts with `// Error` exactly when decoding failed |
| `Render.HeaderNotError` | JSONParserExtension/SourceEditorCommand.swift:54 | a text opening with the formatted-JSON header never opens with `// Error` |
| `Scenarios.UserSorted` | JSONParserExtension/SourceEditorCommand.swift:94 | the keys `user_name, age, tags, address` come out as `address, age, tags, user_name` |
| `Scenarios.UserExample` | JSONParserExtension/SourceEditorCommand.swift:83-123 | `{"user_name":"Ana","age":30,"tags":["a","b"],"address":{"city":"Rome"}}` yields exactly `struct Address { city: String }` followed by `struct JSONModel { address: Address; age: Int; tags: [String]; user_name: String }` |
| `Scenarios.UserOutput` | JSONParserExtension/SourceEditorCommand.swift:53-81 | for that object the whole output is the formatted-JSON header, the `Address` struct text, a line break, the `JSONModel` struct text, and the use-case trailer |
| `Scenarios.RootDeclLines` | JSONParserExtension/SourceEditorCommand.swift:91-113 | the `JSONModel` struct reads, line by line: `struct JSONModel: Codable {`, `    let address: Address`, `    let age: Int`, `    let tags: [String]`, `    let user_name: String`, `}` |

## Left out

- `perform`, `getTextToProcess` and `replaceContent` (SourceEditorCommand.swift:13-28, :192-198) read and rewrite the Xcode buffer through XcodeKit. They are editor I/O and are not modelled.
- `JSONSerialization` decoding and pretty-printing, the two UTF-8 conversions and the whitespace trimming (:31-44) are platform calls. The decoded tree and the pretty text enter as the `DecodeOutcome` value, and so does the platform's error description.
- `String.capitalized` and `Character.isNumber` are parameters (`Foundation`). Only the properties named in each lemma's requires are assumed of them.
- The NSNumber bridging of :148-155 (`is Bool` on numbers, `objCType` and `stringValue`) is represented by the `JNum` flag and text. The flag records whether the platform answers Bool for that number. The text is the number's `stringValue`. Float printing is not modelled.
- The `is Int` and `is Double`/`is Float` cases (:160-163) are unreachable for values the decoder produces, since every number arrives as an NSNumber, and are not modelled.
- The `Any` fallback (:175) is for runtime values that are not JSON. No `Json` value reaches it (`Classifier.NeverAny`).
- Swift's `String <` is modelled as lexicographic order on characters. Unicode canonical equivalence and grapheme clustering in comparison, in `replacingOccurrences` and in `first` are not modelled.
- Collector.Collect: "declared before it" is stated for the struct of the name being collected, not for the nested ones, because it does not hold for them. In `{"a": {"b": {"a": {}}}}` with `capitalized` giving `A` and `B`, the inner `a` is queued as `A` while `A` is still being collected, so `B` refers to `A` and is appended before it. Every reference is still declared somewhere (`Collector.RootCollectionClosed`).
- Distinct object keys are a predicate (`DistinctKeys`) assumed where a lemma needs it, not a type invariant.
- Swift's sort is not stable. The model uses an insertion sort, and `Sorting.SortCharacterised` shows that with distinct keys any correct sort gives the same result.
- JSONParserExtension/SourceEditorExtension.swift only logs on launch and is not part of this model.

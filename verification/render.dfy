/** Turning the collected structs into the command's output text:
    `generateAllStructs` (SourceEditorCommand.swift:71-81), `generateResult`
    (:53-69) and the error mapping of `parseJSON` (:30-51). */
module Render {
  import opened JsonValue
  import opened Text
  import opened Classifier
  import opened Collector

  /** A `let` line without its line break. */
  function LetText(fd: Field): string
  {
    "    let " + fd.name + ": " + FieldTypeText(fd.typ)
  }

  /** The field's name and type text hold no line break. */
  predicate FieldOnOneLine(fd: Field)
  {
    '\n' !in fd.name && '\n' !in FieldTypeText(fd.typ)
  }

  /** The struct's name and every field hold no line break. */
  predicate DeclOnLines(d: Decl)
  {
    '\n' !in d.name && forall i :: 0 <= i < |d.fields| ==> FieldOnOneLine(d.fields[i])
  }

  lemma LetTextOneLine(fd: Field)
    requires FieldOnOneLine(fd)
    ensures '\n' !in LetText(fd)
  {
    assert '\n' !in "    let " && '\n' !in ": ";
  }

  /** One `let` line (:99, :105, :109): indentation, `let`, the name, a
      colon and the type text, then a line break; cut into lines it is that
      one line and the empty rest. */
  function FieldLine(fd: Field): (r: string)
    ensures StartsWith(r, "    let " + fd.name + ": ")
    ensures EndsWith(r, FieldTypeText(fd.typ) + "\n")
    ensures FieldOnOneLine(fd) ==> Lines(r) == [LetText(fd), ""]
  {
    var r := LetText(fd) + "\n";
    var prefix := "    let " + fd.name + ": ";
    assert r == prefix + (FieldTypeText(fd.typ) + "\n");
    assert r[..|prefix|] == prefix;
    if FieldOnOneLine(fd) then
      LetTextOneLine(fd);
      LinesAppend(LetText(fd), "");
      assert LetText(fd) + "\n" + "" == r;
      r
    else
      r
  }

  function FieldLines(fields: seq<Field>): (r: string)
    ensures |fields| > 0 ==> StartsWith(r, FieldLine(fields[0]))
    decreases |fields|
  {
    if |fields| == 0 then [] else FieldLine(fields[0]) + FieldLines(fields[1..])
  }

  /** The `let` lines of the fields, one per field, in order. */
  function LetTexts(fields: seq<Field>): (ls: seq<string>)
    ensures |ls| == |fields|
    ensures forall i :: 0 <= i < |fields| ==> ls[i] == LetText(fields[i])
    decreases |fields|
  {
    if |fields| == 0 then [] else [LetText(fields[0])] + LetTexts(fields[1..])
  }

  /** The field lines followed by any text cut into the `let` lines, then
      the lines of that text. */
  lemma {:induction false} FieldLinesLines(fields: seq<Field>, tail: string)
    requires forall i :: 0 <= i < |fields| ==> FieldOnOneLine(fields[i])
    ensures Lines(FieldLines(fields) + tail) == LetTexts(fields) + Lines(tail)
    decreases |fields|
  {
    if |fields| > 0 {
      var first := LetText(fields[0]);
      FieldLinesCons(fields, tail);
      LetTextOneLine(fields[0]);
      LinesAppend(first, FieldLines(fields[1..]) + tail);
      FieldLinesLines(fields[1..], tail);
      LetTextsCons(fields, Lines(tail));
    } else {
      assert FieldLines(fields) + tail == tail;
    }
  }

  lemma FieldLinesCons(fields: seq<Field>, tail: string)
    requires |fields| > 0
    ensures FieldLines(fields) + tail
            == LetText(fields[0]) + "\n" + (FieldLines(fields[1..]) + tail)
  {
    var later := FieldLines(fields[1..]);
    assert FieldLines(fields) == (LetText(fields[0]) + "\n") + later;
    Assoc(LetText(fields[0]) + "\n", later, tail);
  }

  lemma LetTextsCons(fields: seq<Field>, more: seq<string>)
    requires |fields| > 0
    ensures [LetText(fields[0])] + (LetTexts(fields[1..]) + more) == LetTexts(fields) + more
  {
    assert LetTexts(fields) == [LetText(fields[0])] + LetTexts(fields[1..]);
    Assoc([LetText(fields[0])], LetTexts(fields[1..]), more);
  }

  /** The first line of a struct, without its line break. */
  function Opening(name: string): string
  {
    "struct " + name + ": Codable {"
  }

  function StructHeader(name: string): string
  {
    Opening(name) + "\n"
  }

  /** The text of one struct (:91, :113). */
  function DeclText(d: Decl): (t: string)
    ensures StartsWith(t, StructHeader(d.name))
    ensures EndsWith(t, "}\n")
  {
    var t := StructHeader(d.name) + FieldLines(d.fields) + "}\n";
    assert t[..|StructHeader(d.name)|] == StructHeader(d.name);
    t
  }

  /** Cut into lines, a struct's text is its opening line, one `let` line per
      field in field order, the closing brace, and the empty rest after the
      final line break. */
  lemma DeclTextLines(d: Decl)
    requires DeclOnLines(d)
    ensures var ls := Lines(DeclText(d));
            && |ls| == |d.fields| + 3
            && ls[0] == "struct " + d.name + ": Codable {"
            && (forall i :: 0 <= i < |d.fields| ==>
                  ls[i + 1] == "    let " + d.fields[i].name + ": " + FieldTypeText(d.fields[i].typ))
            && ls[|d.fields| + 1] == "}"
            && ls[|d.fields| + 2] == ""
  {
    var body := FieldLines(d.fields) + "}\n";
    OpeningOneLine(d.name);
    Assoc(StructHeader(d.name), FieldLines(d.fields), "}\n");
    LinesAppend(Opening(d.name), body);
    FieldLinesLines(d.fields, "}\n");
    ClosingLines();
  }

  lemma OpeningOneLine(name: string)
    requires '\n' !in name
    ensures '\n' !in Opening(name)
  {
    assert '\n' !in "struct " && '\n' !in ": Codable {";
  }

  lemma ClosingLines()
    ensures Lines("}\n") == ["}", ""]
  {
    assert "}\n" == "}" + "\n" + "";
    LinesAppend("}", "");
  }

  /** The struct texts, in declaration order. */
  function DeclTexts(decls: seq<Decl>): (ts: seq<string>)
    ensures |ts| == |decls|
    ensures forall i :: 0 <= i < |decls| ==> ts[i] == DeclText(decls[i])
    decreases |decls|
  {
    if |decls| == 0 then [] else [DeclText(decls[0])] + DeclTexts(decls[1..])
  }

  /** The structs collected from scratch for an object under a root name. */
  function RootDecls(f: Foundation, ms: seq<Member>, root: string): seq<Decl>
  {
    Collect(f, ms, root, {}).0
  }

  /** `generateAllStructs`: the collected struct texts separated by
      newlines. It opens with the first struct collected and closes with the
      root struct, which comes after every child struct. */
  function GenerateAllStructs(f: Foundation, ms: seq<Member>, root: string): (r: string)
    ensures var decls := RootDecls(f, ms, root);
            && |decls| > 0 && decls[|decls| - 1].name == root
            && StartsWith(r, DeclText(decls[0]))
            && EndsWith(r, DeclText(decls[|decls| - 1]))
  {
    var decls := RootDecls(f, ms, root);
    RootLast(f, ms, root);
    JoinedTexts(decls);
    Join(DeclTexts(decls), "\n")
  }

  /** Struct texts joined with line breaks open with the first struct's text
      and close with the last one's. */
  lemma JoinedTexts(decls: seq<Decl>)
    requires |decls| > 0
    ensures StartsWith(Join(DeclTexts(decls), "\n"), DeclText(decls[0]))
    ensures EndsWith(Join(DeclTexts(decls), "\n"), DeclText(decls[|decls| - 1]))
  {
    JoinEndsWithLast(DeclTexts(decls), "\n");
  }

  /** Everything before the declarations (:54). */
  function Header(pretty: string): string
  {
    "// \U{1F4DD} Formatted JSON:\n/*\n" + pretty + "\n*/\n\n"
  }

  /** Everything after the declarations (:64-66). */
  const Trailer: string :=
    "\n// USE CASE Example:\n"
    + "// let decoder = JSONDecoder()\n"
    + "// let model = try decoder.decode(JSONModel.self, from: jsonData)\n"

  /** The line announcing a top-level array (:60). */
  function ArrayLine(count: nat): string
  {
    "// \U{1F4CB} Array with " + NatToString(count) + " elements\n"
  }

  /** The value has a struct to generate for: an object, or an array whose
      first element is an object. */
  predicate HasModel(v: Json)
  {
    v.JObj? || (v.JArr? && |v.items| > 0 && v.items[0].JObj?)
  }

  /** What `generateResult` puts between the header and the trailer. */
  function Body(f: Foundation, v: Json): string
  {
    match v
    case JObj(ms) => GenerateAllStructs(f, ms, "JSONModel")
    case JArr(items) =>
      if |items| > 0 && items[0].JObj? then
        ArrayLine(|items|) + GenerateAllStructs(f, items[0].members, "ArrayElement")
      else []
    case _ => []
  }

  /** `generateResult`: the pretty-printed input in a comment, the structs
      for an object or an array of objects, and the fixed trailer. */
  function GenerateResult(f: Foundation, pretty: string, v: Json): (r: string)
    ensures StartsWith(r, Header(pretty))
    ensures EndsWith(r, Trailer)
    ensures !HasModel(v) ==> r == Header(pretty) + Trailer
    ensures v.JObj? ==>
              r == Header(pretty) + GenerateAllStructs(f, v.members, "JSONModel") + Trailer
    ensures v.JArr? && HasModel(v) ==>
              r == Header(pretty) + ArrayLine(|v.items|)
                   + GenerateAllStructs(f, v.items[0].members, "ArrayElement") + Trailer
  {
    Framed(Header(pretty), Body(f, v), Trailer);
    if v.JArr? && HasModel(v) then
      Regroup(Header(pretty), ArrayLine(|v.items|),
              GenerateAllStructs(f, v.items[0].members, "ArrayElement"), Trailer);
      Header(pretty) + Body(f, v) + Trailer
    else
      Regroup(Header(pretty), [], [], Trailer);
      Header(pretty) + Body(f, v) + Trailer
  }

  /** Declarations come only from an object or an array of objects, under
      the root name `JSONModel` or `ArrayElement`; their names are distinct,
      every struct a field refers to is among them, and the root struct is
      the last text before the trailer. */
  lemma ResultDeclarations(f: Foundation, pretty: string, v: Json)
    requires HasModel(v)
    ensures var ms := if v.JObj? then v.members else v.items[0].members;
            var root := if v.JObj? then "JSONModel" else "ArrayElement";
            var decls := RootDecls(f, ms, root);
            && |decls| > 0 && decls[|decls| - 1].name == root
            && DistinctNames(decls)
            && RefsWithin(decls, NameSet(decls))
            && EndsWith(GenerateResult(f, pretty, v), DeclText(decls[|decls| - 1]) + Trailer)
  {
    var ms := ModelMembers(v);
    var root := RootName(v);
    var decls := RootDecls(f, ms, root);
    RootCollectionClosed(f, ms, root);
    ResultAround(f, pretty, v);
    EndsWithExtended(Before(pretty, v), GenerateAllStructs(f, ms, root),
                     DeclText(decls[|decls| - 1]), Trailer);
  }

  /** The object the structs are generated for, its root name, and what
      precedes its structs in the output. */
  function ModelMembers(v: Json): seq<Member>
    requires HasModel(v)
  {
    if v.JObj? then v.members else v.items[0].members
  }

  function RootName(v: Json): string
  {
    if v.JObj? then "JSONModel" else "ArrayElement"
  }

  function Before(pretty: string, v: Json): string
    requires HasModel(v)
  {
    if v.JObj? then Header(pretty) else Header(pretty) + ArrayLine(|v.items|)
  }

  lemma ResultAround(f: Foundation, pretty: string, v: Json)
    requires HasModel(v)
    ensures GenerateResult(f, pretty, v)
            == Before(pretty, v) + GenerateAllStructs(f, ModelMembers(v), RootName(v)) + Trailer
  {
  }

  /** The number announced in the array line reads back as the element
      count. */
  lemma ArrayLineCount(count: nat)
    ensures var digits := NatToString(count);
            ArrayLine(count) == "// \U{1F4CB} Array with " + digits + " elements\n"
            && ParseNat(digits) == count
  {
    ParseNatToString(count);
  }

  /** What the platform's decoder and pretty-printer made of the trimmed
      input text (:31-44), the only part of `parseJSON` that is not
      modelled in full. */
  datatype DecodeOutcome =
    | NotUtf8                                 // :33, the text has no UTF-8 form
    | Thrown(description: string)             // :38-39, decoding or printing threw
    | PrettyNotUtf8                           // :42, the printed data is not UTF-8
    | Decoded(value: Json, pretty: string)    // :38-42, both succeeded

  /** The comment when the input text has no UTF-8 form (:34). */
  const NotUtf8Comment: string := "// Error: Unable UTF-8 encoding"

  /** The comment when the pretty-printed data is not UTF-8 (:43). */
  const PrettyNotUtf8Comment: string := "// Error: Unable String conversion"

  /** Both fixed comments carry the error marker and fit on one line. */
  lemma FixedComments()
    ensures StartsWith(NotUtf8Comment, "// Error") && '\n' !in NotUtf8Comment
    ensures StartsWith(PrettyNotUtf8Comment, "// Error") && '\n' !in PrettyNotUtf8Comment
  {
  }

  /** The comment for a decoder that threw: the marker, then the platform's
      description (:49). */
  function ThrownComment(description: string): (r: string)
    ensures StartsWith(r, "// Error")
    ensures EndsWith(r, description)
    ensures '\n' in r <==> '\n' in description
  {
    var prefix := "// Error JSON parsing: ";
    assert '\n' !in prefix;
    var r := prefix + description;
    assert r[..8] == "// Error";
    assert r[|prefix|..] == description;
    r
  }

  /** The one-line comment `parseJSON` returns for a failure. */
  function ErrorComment(outcome: DecodeOutcome): (r: string)
    requires !outcome.Decoded?
    ensures StartsWith(r, "// Error")
    ensures outcome.Thrown? ==> EndsWith(r, outcome.description)
    ensures !(outcome.Thrown? && '\n' in outcome.description) ==> '\n' !in r
  {
    FixedComments();
    match outcome
    case NotUtf8 => NotUtf8Comment
    case PrettyNotUtf8 => PrettyNotUtf8Comment
    case Thrown(description) => ThrownComment(description)
  }

  /** `parseJSON`: every failure becomes a one-line comment, success the
      generated text. */
  function ParseJson(f: Foundation, outcome: DecodeOutcome): (r: string)
    ensures outcome.Decoded? ==> r == GenerateResult(f, outcome.pretty, outcome.value)
    ensures !outcome.Decoded? ==> r == ErrorComment(outcome)
    ensures StartsWith(r, "// Error") <==> !outcome.Decoded?
  {
    match outcome
    case Decoded(value, pretty) =>
      var r := GenerateResult(f, pretty, value);
      HeaderNotError(pretty, r);
      r
    case _ => ErrorComment(outcome)
  }

  /** A text that opens with the header cannot open with the error marker:
      the two differ in their fourth character. */
  lemma HeaderNotError(pretty: string, r: string)
    requires StartsWith(r, Header(pretty))
    ensures !StartsWith(r, "// Error")
  {
    assert Header(pretty)[3] == '\U{1F4DD}';
    assert r[3] == Header(pretty)[3];
  }
}

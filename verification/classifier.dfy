/** Choosing the Swift type written after a property name: the value
    classifier `getSwiftType` (SourceEditorCommand.swift:144-177) and the array
    field typer `getArrayType` (:125-142). */
module Classifier {
  import opened JsonValue
  import opened Text

  /** The Swift type text for a value, as `getSwiftType` returns it. The
      `Any` fallback of the source is for runtime values that are none of the
      JSON kinds, so it is never reached from a decoded tree (see NeverAny). */
  function SwiftType(v: Json): (r: string)
    ensures |r| >= 3
    ensures r[0] == '[' <==> v.JArr? || v.JObj?
    decreases v
  {
    match v
    case JStr(_) => "String"
    case JBool(_) => "Bool"
    case JNum(isBoolFlag, text) =>
      if isBoolFlag then "Bool"
      else if '.' in text then "Double"
      else "Int"
    case JArr(items) =>
      if |items| > 0 then "[" + SwiftType(items[0]) + "]" else "[Any]"
    case JObj(_) => "[String: Any]"
    case JNull => "String?"
  }

  /** The type texts that name a scalar, i.e. that do not start with `[`. */
  predicate IsScalarText(t: string)
  {
    t in {"String", "Bool", "Double", "Int", "String?"}
  }

  /** A type text is either a scalar name or a bracketed form. */
  lemma {:induction false} SwiftTypeShape(v: Json)
    ensures IsScalarText(SwiftType(v)) <==> !(v.JArr? || v.JObj?)
    ensures SwiftType(v) != "Any" && SwiftType(v) != "String: Any"
    decreases v
  {
    if v.JArr? && |v.items| > 0 {
      SwiftTypeShape(v.items[0]);
    }
  }

  /** The classification table, read backwards: each scalar type text is
      produced by exactly the values listed for it, and the two fixed
      bracketed texts by exactly the empty array and the objects. */
  lemma SwiftTypeTable(v: Json)
    ensures SwiftType(v) == "String" <==> v.JStr?
    ensures SwiftType(v) == "Bool" <==> v.JBool? || (v.JNum? && v.isBoolFlag)
    ensures SwiftType(v) == "Double" <==> v.JNum? && !v.isBoolFlag && '.' in v.text
    ensures SwiftType(v) == "Int" <==> v.JNum? && !v.isBoolFlag && '.' !in v.text
    ensures SwiftType(v) == "String?" <==> v.JNull?
    ensures SwiftType(v) == "[String: Any]" <==> v.JObj?
    ensures SwiftType(v) == "[Any]" <==> v == JArr([])
  {
    SwiftTypeShape(v);
    if v.JArr? && |v.items| > 0 {
      SwiftTypeShape(v.items[0]);
      var inner := SwiftType(v.items[0]);
      assert SwiftType(v)[1..|SwiftType(v)| - 1] == inner;
    }
  }

  /** The decoded tree never produces the `Any` fallback, at any depth. */
  lemma NeverAny(v: Json)
    ensures SwiftType(v) != "Any"
  {
    SwiftTypeShape(v);
  }

  /** Only the first element of an array decides its type: arrays that agree
      on their first element get the same type whatever follows it. */
  lemma ArrayTypedByFirst(first: Json, rest1: seq<Json>, rest2: seq<Json>)
    ensures SwiftType(JArr([first] + rest1)) == SwiftType(JArr([first] + rest2))
    ensures SwiftType(JArr([first] + rest1)) == "[" + SwiftType(first) + "]"
  {
    assert ([first] + rest1)[0] == first;
    assert ([first] + rest2)[0] == first;
  }

  /** Removes every occurrence of the literal two-character text `s$`,
      scanning left to right, as `replacingOccurrences(of: "s$", with: "")`
      does without the regular-expression option. */
  function RemoveLiteralSDollar(s: string): (r: string)
    ensures |r| <= |s|
    ensures '$' !in s ==> r == s
    ensures forall c :: c in r ==> c in s
    decreases |s|
  {
    if |s| < 2 then s
    else if s[0] == 's' && s[1] == '$' then RemoveLiteralSDollar(s[2..])
    else [s[0]] + RemoveLiteralSDollar(s[1..])
  }

  /** A trailing `s` is never removed: the pattern is literal text, not an
      end-anchored expression. */
  lemma {:induction false} TrailingSKept(x: string)
    ensures RemoveLiteralSDollar(x + "s") == RemoveLiteralSDollar(x) + "s"
    decreases |x|
  {
    if |x| >= 2 {
      assert (x + "s")[1..] == x[1..] + "s";
      assert (x + "s")[2..] == x[2..] + "s";
      TrailingSKept(x[1..]);
      TrailingSKept(x[2..]);
    } else if |x| == 1 {
      assert x + "s" == [x[0], 's'];
    }
  }

  /** Appending the literal text and removing it gives back what removing
      from the original gives. */
  lemma {:induction false} AppendedLiteralRemoved(x: string)
    ensures RemoveLiteralSDollar(x + "s$") == RemoveLiteralSDollar(x)
    decreases |x|
  {
    if |x| >= 2 {
      assert (x + "s$")[1..] == x[1..] + "s$";
      assert (x + "s$")[2..] == x[2..] + "s$";
      AppendedLiteralRemoved(x[1..]);
      AppendedLiteralRemoved(x[2..]);
    } else if |x| == 1 {
      assert x + "s$" == [x[0], 's', '$'];
      assert (x + "s$")[1..] == "s$";
      assert RemoveLiteralSDollar("s$") == [];
    } else {
      assert x + "s$" == "s$";
      assert RemoveLiteralSDollar("s$") == [];
    }
  }

  /** Removal works piece by piece when the first piece cannot start an
      occurrence that runs into the second. */
  lemma {:induction false} RemovalSplits(a: string, b: string)
    requires |a| == 0 || a[|a| - 1] != 's'
    ensures RemoveLiteralSDollar(a + b) == RemoveLiteralSDollar(a) + RemoveLiteralSDollar(b)
    decreases |a|
  {
    if |a| == 1 {
      assert a + b == [a[0]] + b;
      if |b| > 0 {
        assert (a + b)[1..] == b;
      }
    } else if |a| >= 2 {
      assert (a + b)[1..] == a[1..] + b;
      assert (a + b)[2..] == a[2..] + b;
      if a[0] == 's' && a[1] == '$' {
        RemovalSplits(a[2..], b);
      } else {
        RemovalSplits(a[1..], b);
        assert [a[0]] + (RemoveLiteralSDollar(a[1..]) + RemoveLiteralSDollar(b))
            == [a[0]] + RemoveLiteralSDollar(a[1..]) + RemoveLiteralSDollar(b);
      }
    } else {
      assert a + b == b;
    }
  }

  /** The text is scanned once, left to right: removing `s$` from `ss$` + `y`
      leaves an `s` in front of whatever `y` becomes, so an occurrence formed by
      a removal stays. On `ss$$` this gives `s$`, which a second removal would
      clear. */
  lemma {:induction false} SinglePass(y: string)
    ensures RemoveLiteralSDollar("ss$" + y) == "s" + RemoveLiteralSDollar(y)
    ensures RemoveLiteralSDollar("ss$$") == "s$"
    ensures RemoveLiteralSDollar(RemoveLiteralSDollar("ss$$")) == ""
  {
    forall z: string
      ensures RemoveLiteralSDollar("ss$" + z) == "s" + RemoveLiteralSDollar(z)
    {
      var w := "ss$" + z;
      assert w[1..] == "s$" + z;
      assert w[1..][2..] == z;
    }
    assert "ss$$" == "ss$" + "$";
    assert RemoveLiteralSDollar("$") == "$";
  }

  /** Name of the struct generated for the objects of an array property
      (:134). */
  function ElementName(capitalized: string -> string, prop: string): (n: string)
    ensures EndsWith(n, "Element")
    ensures '$' !in capitalized(prop) ==> n == capitalized(prop) + "Element"
  {
    RemoveLiteralSDollar(capitalized(prop)) + "Element"
  }

  /** A property `users` whose capitalisation is `Users` names its element
      struct `UsersElement`: the plural `s` stays. */
  lemma UsersKeepsPlural(capitalized: string -> string)
    requires capitalized("users") == "Users"
    ensures ElementName(capitalized, "users") == "UsersElement"
    ensures ElementName(capitalized, "users") != "UserElement"
  {
    assert '$' !in "Users";
  }

  /** The type a generated property is declared with. */
  datatype FieldType =
    | Plain(text: string)         // a type text from the classifier
    | Named(name: string)         // a generated struct
    | ArrayOfNamed(name: string)  // an array of a generated struct

  function FieldTypeText(t: FieldType): string
  {
    match t
    case Plain(text) => text
    case Named(name) => name
    case ArrayOfNamed(name) => "[" + name + "]"
  }

  /** The generated struct names a field type refers to. */
  function Refs(t: FieldType): set<string>
  {
    match t
    case Plain(_) => {}
    case Named(name) => {name}
    case ArrayOfNamed(name) => {name}
  }

  /** An object waiting to be turned into a struct of the given name. */
  datatype Pending = Pending(members: seq<Member>, name: string)

  /** `getArrayType`: the type of an array property, and the objects it
      queues (at most its first element). */
  function ArrayType(capitalized: string -> string, prop: string, items: seq<Json>)
    : (r: (FieldType, seq<Pending>))
    ensures |r.1| <= 1
    ensures |r.1| == 1 <==> |items| > 0 && items[0].JObj?
    ensures |items| > 0 && items[0].JObj? ==>
              r.1[0] == Pending(items[0].members, ElementName(capitalized, prop))
              && FieldTypeText(r.0) == "[" + ElementName(capitalized, prop) + "]"
              && Refs(r.0) == {ElementName(capitalized, prop)}
    ensures !(|items| > 0 && items[0].JObj?) ==>
              r.0 == Plain(SwiftType(JArr(items))) && Refs(r.0) == {}
  {
    if |items| == 0 then (Plain("[Any]"), [])
    else match items[0]
      case JObj(ms) =>
        var name := ElementName(capitalized, prop);
        (ArrayOfNamed(name), [Pending(ms, name)])
      case _ => (Plain("[" + SwiftType(items[0]) + "]"), [])
  }
}

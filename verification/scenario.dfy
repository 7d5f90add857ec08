/** A worked example of the generator on a small object: the structs it
    collects, the output text around them, and the lines of the root struct. */
module Scenarios {
  import opened JsonValue
  import opened Text
  import opened Sorting
  import opened Sanitizer
  import opened Classifier
  import opened Collector
  import opened Render

  const City := Member("city", JStr("Rome"))
  const UserName := Member("user_name", JStr("Ana"))
  const Age := Member("age", JNum(false, "30"))
  const Tags := Member("tags", JArr([JStr("a"), JStr("b")]))
  const Address := Member("address", JObj([City]))

  /** The members in document order. */
  const UserMembers := [UserName, Age, Tags, Address]

  lemma UserKeysAscending()
    ensures Ascending([Address, Age, Tags, UserName])
  {
    assert Less("address", "age") by {
      assert Less("ddress", "ge");
    }
    assert Less("age", "tags");
    assert Less("tags", "user_name");
    LessTransitive("address", "age", "tags");
    LessTransitive("age", "tags", "user_name");
    LessTransitive("address", "tags", "user_name");
  }

  lemma UserKeysDistinct()
    ensures DistinctKeys(UserMembers)
  {
  }

  lemma UserPermutation()
    ensures multiset([Address, Age, Tags, UserName]) == multiset(UserMembers)
  {
  }

  /** The decoder's member order does not reach the output: the members come
      out ordered by key. */
  lemma UserSorted()
    ensures SortByKey(UserMembers) == [Address, Age, Tags, UserName]
  {
    UserKeysAscending();
    UserKeysDistinct();
    UserPermutation();
    SortCharacterised(UserMembers, [Address, Age, Tags, UserName]);
  }

  lemma AddressKept(isNumber: char -> bool)
    requires !isNumber('a')
    ensures MakeValidPropertyName(isNumber, "address") == "address"
  {
    PlainKeyUnchanged(isNumber, "address");
  }

  lemma AgeKept(isNumber: char -> bool)
    requires !isNumber('a')
    ensures MakeValidPropertyName(isNumber, "age") == "age"
  {
    PlainKeyUnchanged(isNumber, "age");
  }

  lemma TagsKept(isNumber: char -> bool)
    requires !isNumber('t')
    ensures MakeValidPropertyName(isNumber, "tags") == "tags"
  {
    PlainKeyUnchanged(isNumber, "tags");
  }

  lemma UserNameKept(isNumber: char -> bool)
    requires !isNumber('u')
    ensures MakeValidPropertyName(isNumber, "user_name") == "user_name"
  {
    PlainKeyUnchanged(isNumber, "user_name");
  }

  lemma CityKept(isNumber: char -> bool)
    requires !isNumber('c')
    ensures MakeValidPropertyName(isNumber, "city") == "city"
  {
    PlainKeyUnchanged(isNumber, "city");
  }

  lemma AddressField(f: Foundation)
    requires MakeValidPropertyName(f.isNumber, "address") == "address"
    requires f.capitalized("address") == "Address"
    ensures MemberField(f, Address) == (Field("address", Named("Address")), [Pending([City], "Address")])
  {
    assert MakeValidPropertyName(f.isNumber, Address.key) == "address";
  }

  lemma AgeField(f: Foundation)
    requires MakeValidPropertyName(f.isNumber, "age") == "age"
    ensures MemberField(f, Age) == (Field("age", Plain("Int")), [])
  {
    assert MakeValidPropertyName(f.isNumber, Age.key) == "age";
  }

  lemma TagsField(f: Foundation)
    requires MakeValidPropertyName(f.isNumber, "tags") == "tags"
    ensures MemberField(f, Tags) == (Field("tags", Plain("[String]")), [])
  {
    assert MakeValidPropertyName(f.isNumber, Tags.key) == "tags";
    assert SwiftType(JArr([JStr("a"), JStr("b")])) == "[String]";
  }

  lemma UserNameField(f: Foundation)
    requires MakeValidPropertyName(f.isNumber, "user_name") == "user_name"
    ensures MemberField(f, UserName) == (Field("user_name", Plain("String")), [])
  {
    assert MakeValidPropertyName(f.isNumber, UserName.key) == "user_name";
    assert SwiftType(UserName.value) == "String";
  }

  lemma CityField(f: Foundation)
    requires MakeValidPropertyName(f.isNumber, "city") == "city"
    ensures MemberField(f, City) == (Field("city", Plain("String")), [])
  {
    assert MakeValidPropertyName(f.isNumber, City.key) == "city";
    assert SwiftType(City.value) == "String";
  }

  /** One step of `Fields`: the first member's field and queue in front of
      those of the rest. */
  lemma FieldsStep(f: Foundation, m: Member, rest: seq<Member>,
                   field: Field, queued: seq<Pending>, fields: seq<Field>, queue: seq<Pending>)
    requires MemberField(f, m) == (field, queued)
    requires Fields(f, rest) == (fields, queue)
    ensures Fields(f, [m] + rest) == ([field] + fields, queued + queue)
  {
    var s := [m] + rest;
    assert s[0] == m && s[1..] == rest;
    var r := Fields(f, s);
    assert r == (r.0, r.1);
  }

  const AddressProp := Field("address", Named("Address"))
  const AgeProp := Field("age", Plain("Int"))
  const TagsProp := Field("tags", Plain("[String]"))
  const UserNameProp := Field("user_name", Plain("String"))
  const CityProp := Field("city", Plain("String"))
  const AddressDecl := Decl("Address", [CityProp])
  const RootDecl := Decl("JSONModel", [AddressProp, AgeProp, TagsProp, UserNameProp])

  lemma UserMemberFields(f: Foundation)
    requires !f.isNumber('u') && !f.isNumber('a') && !f.isNumber('t') && !f.isNumber('c')
    requires f.capitalized("address") == "Address"
    ensures MemberField(f, Address) == (AddressProp, [Pending([City], "Address")])
    ensures MemberField(f, Age) == (AgeProp, [])
    ensures MemberField(f, Tags) == (TagsProp, [])
    ensures MemberField(f, UserName) == (UserNameProp, [])
    ensures MemberField(f, City) == (CityProp, [])
  {
    AddressKept(f.isNumber);
    AddressField(f);
    AgeKept(f.isNumber);
    AgeField(f);
    TagsKept(f.isNumber);
    TagsField(f);
    UserNameKept(f.isNumber);
    UserNameField(f);
    CityKept(f.isNumber);
    CityField(f);
  }

  lemma TailFields(f: Foundation)
    requires MemberField(f, Age) == (AgeProp, [])
    requires MemberField(f, Tags) == (TagsProp, [])
    requires MemberField(f, UserName) == (UserNameProp, [])
    ensures Fields(f, [Age, Tags, UserName]) == ([AgeProp, TagsProp, UserNameProp], [])
  {
    var none: seq<Pending> := [];
    assert Fields(f, []) == ([], none);
    assert [UserName] + [] == [UserName];
    FieldsStep(f, UserName, [], UserNameProp, none, [], none);
    assert none + none == none;
    assert [UserNameProp] + [] == [UserNameProp];
    assert [Tags] + [UserName] == [Tags, UserName];
    FieldsStep(f, Tags, [UserName], TagsProp, none, [UserNameProp], none);
    assert [TagsProp] + [UserNameProp] == [TagsProp, UserNameProp];
    assert [Age] + [Tags, UserName] == [Age, Tags, UserName];
    FieldsStep(f, Age, [Tags, UserName], AgeProp, none, [TagsProp, UserNameProp], none);
    assert [AgeProp] + [TagsProp, UserNameProp] == [AgeProp, TagsProp, UserNameProp];
  }

  lemma UserFields(f: Foundation)
    requires MemberField(f, Address) == (AddressProp, [Pending([City], "Address")])
    requires Fields(f, [Age, Tags, UserName]) == ([AgeProp, TagsProp, UserNameProp], [])
    ensures Fields(f, [Address, Age, Tags, UserName])
         == ([AddressProp, AgeProp, TagsProp, UserNameProp], [Pending([City], "Address")])
  {
    var none: seq<Pending> := [];
    assert [Address] + [Age, Tags, UserName] == [Address, Age, Tags, UserName];
    FieldsStep(f, Address, [Age, Tags, UserName], AddressProp, [Pending([City], "Address")],
               [AgeProp, TagsProp, UserNameProp], none);
    assert [AddressProp] + [AgeProp, TagsProp, UserNameProp]
        == [AddressProp, AgeProp, TagsProp, UserNameProp];
    assert [Pending([City], "Address")] + none == [Pending([City], "Address")];
  }

  lemma CityFields(f: Foundation)
    requires MemberField(f, City) == (CityProp, [])
    ensures Fields(f, [City]) == ([CityProp], [])
  {
    var none: seq<Pending> := [];
    assert Fields(f, []) == ([], none);
    assert [City] + [] == [City];
    FieldsStep(f, City, [], CityProp, none, [], none);
    assert [CityProp] + [] == [CityProp];
    assert none + none == none;
  }

  lemma UserFieldsFor(f: Foundation)
    requires !f.isNumber('u') && !f.isNumber('a') && !f.isNumber('t') && !f.isNumber('c')
    requires f.capitalized("address") == "Address"
    ensures Fields(f, [Address, Age, Tags, UserName])
         == ([AddressProp, AgeProp, TagsProp, UserNameProp], [Pending([City], "Address")])
    ensures Fields(f, [City]) == ([CityProp], [])
  {
    UserMemberFields(f);
    TailFields(f);
    UserFields(f);
    CityFields(f);
  }

  /** The nested object becomes `Address`, which is then registered. */
  lemma AddressCollected(f: Foundation, bound: nat)
    requires Fields(f, [City]) == ([CityProp], [])
    requires MembersSize([City]) < bound
    ensures CollectQueue(f, [Pending([City], "Address")], {"JSONModel"}, bound)
         == ([AddressDecl], {"JSONModel", "Address"})
  {
    var names := {"JSONModel", "Address"};
    assert {"JSONModel"} + {"Address"} == names;
    assert SortByKey([City]) == [City];
    var c := Collect(f, [City], "Address", {"JSONModel"});
    assert CollectQueue(f, [], names, MembersSize([City])) == ([], names);
    assert c.0 == [] + [AddressDecl];
    assert [] + [AddressDecl] == [AddressDecl];
    assert c.1 == names;
    assert c == ([AddressDecl], names);
    var q := [Pending([City], "Address")];
    assert q[0].members == [City] && q[0].name == "Address" && q[1..] == [];
    var r := CollectQueue(f, q, {"JSONModel"}, bound);
    assert CollectQueue(f, [], names, bound) == ([], names);
    assert r.0 == [AddressDecl] + [];
    assert [AddressDecl] + [] == [AddressDecl];
    assert r.1 == names;
    assert r == (r.0, r.1);
  }

  /** The root step of collection with a single queued object that yields a
      single struct, stated for any members so that the concrete ones are
      not unfolded. */
  lemma RootStep(f: Foundation, ms: seq<Member>, root: string, sorted: seq<Member>,
                 fields: seq<Field>, queue: seq<Pending>, done: set<string>,
                 child: Decl, done': set<string>)
    requires done == {root}
    requires |queue| == 1 && MembersSize(queue[0].members) < MembersSize(ms)
    requires CollectQueue(f, queue, done, MembersSize(ms)) == ([child], done')
    requires SortByKey(ms) == sorted
    requires Fields(f, sorted) == (fields, queue)
    ensures RootDecls(f, ms, root) == [child, Decl(root, fields)]
  {
    RootCollect(f, ms, root, sorted, fields, queue, done, [child], done');
    Pair(child, Decl(root, fields));
  }

  lemma RootCollect(f: Foundation, ms: seq<Member>, root: string, sorted: seq<Member>,
                    fields: seq<Field>, queue: seq<Pending>, done: set<string>,
                    children: seq<Decl>, done': set<string>)
    requires done == {root}
    requires |queue| == 1 && MembersSize(queue[0].members) < MembersSize(ms)
    requires CollectQueue(f, queue, done, MembersSize(ms)) == (children, done')
    requires SortByKey(ms) == sorted
    requires Fields(f, sorted) == (fields, queue)
    ensures Collect(f, ms, root, {}) == (children + [Decl(root, fields)], done')
  {
    assert {} + {root} == done;
    assert queue == [queue[0]];
    CollectStep(f, ms, root, {}, sorted, fields, queue, children, done');
  }

  lemma Pair(a: Decl, b: Decl)
    ensures [a] + [b] == [a, b]
  {
  }

  /** Collection of any members that sort to those of the example. */
  lemma SortedAsUser(f: Foundation, ms: seq<Member>)
    requires !f.isNumber('u') && !f.isNumber('a') && !f.isNumber('t') && !f.isNumber('c')
    requires f.capitalized("address") == "Address"
    requires SortByKey(ms) == [Address, Age, Tags, UserName]
    requires MembersSize([City]) < MembersSize(ms)
    ensures RootDecls(f, ms, "JSONModel") == [AddressDecl, RootDecl]
  {
    UserFieldsFor(f);
    AddressCollected(f, MembersSize(ms));
    RootStep(f, ms, "JSONModel", [Address, Age, Tags, UserName], [AddressProp, AgeProp, TagsProp, UserNameProp],
             [Pending([City], "Address")], {"JSONModel"}, AddressDecl, {"JSONModel", "Address"});
    assert Decl("JSONModel", [AddressProp, AgeProp, TagsProp, UserNameProp]) == RootDecl;
  }

  /** `{"user_name":"Ana","age":30,"tags":["a","b"],"address":{"city":"Rome"}}`
      yields exactly the struct `Address` with its one `String` field
      followed by `JSONModel` with its four fields in key order. */
  lemma UserExample(f: Foundation)
    requires !f.isNumber('u') && !f.isNumber('a') && !f.isNumber('t') && !f.isNumber('c')
    requires f.capitalized("address") == "Address"
    ensures RootDecls(f, UserMembers, "JSONModel") == [AddressDecl, RootDecl]
  {
    UserSorted();
    AddressSmaller();
    SortedAsUser(f, UserMembers);
  }

  lemma AddressSmaller()
    ensures MembersSize([City]) < MembersSize(UserMembers)
  {
    MemberSmaller(UserMembers, Address);
  }

  /** Structs collected as a pair are written as the two texts with a blank
      line between them. */
  lemma TwoStructsText(f: Foundation, ms: seq<Member>, root: string, a: Decl, b: Decl)
    requires RootDecls(f, ms, root) == [a, b]
    ensures GenerateAllStructs(f, ms, root) == DeclText(a) + "\n" + DeclText(b)
  {
    assert DeclTexts([a, b]) == [DeclText(a), DeclText(b)];
    assert [DeclText(a), DeclText(b)][1..] == [DeclText(b)];
  }

  /** The whole output for the example object: the header with the
      pretty-printed input, the `Address` struct, a blank line, the
      `JSONModel` struct, and the usage trailer. */
  lemma UserOutput(f: Foundation, pretty: string)
    requires !f.isNumber('u') && !f.isNumber('a') && !f.isNumber('t') && !f.isNumber('c')
    requires f.capitalized("address") == "Address"
    ensures ParseJson(f, Decoded(JObj(UserMembers), pretty))
            == Header(pretty) + (DeclText(AddressDecl) + "\n" + DeclText(RootDecl)) + Trailer
  {
    UserExample(f);
    TwoStructsText(f, UserMembers, "JSONModel", AddressDecl, RootDecl);
  }

  /** The lines of the `JSONModel` struct as they appear in the output. */
  lemma RootDeclLines()
    ensures Lines(DeclText(RootDecl))
            == ["struct JSONModel: Codable {",
                "    let address: Address",
                "    let age: Int",
                "    let tags: [String]",
                "    let user_name: String",
                "}",
                ""]
  {
    RootDeclOnLines();
    FourFieldLines(RootDecl);
    RootLetTexts();
    LaterLetTexts();
  }

  /** The lines of a struct with four fields, listed one by one. */
  lemma FourFieldLines(d: Decl)
    requires DeclOnLines(d) && |d.fields| == 4
    ensures Lines(DeclText(d))
            == [Opening(d.name), LetText(d.fields[0]), LetText(d.fields[1]),
                LetText(d.fields[2]), LetText(d.fields[3]), "}", ""]
  {
    DeclTextLines(d);
    var ls := Lines(DeclText(d));
    assert ls == [ls[0], ls[1], ls[2], ls[3], ls[4], ls[5], ls[6]];
  }

  lemma RootDeclOnLines()
    ensures DeclOnLines(RootDecl)
  {
    assert RootDecl.fields == [AddressProp, AgeProp, TagsProp, UserNameProp];
    assert forall i :: 0 <= i < 4 ==> FieldOnOneLine(RootDecl.fields[i]);
  }

  lemma RootLetTexts()
    ensures Opening("JSONModel") == "struct JSONModel: Codable {"
    ensures LetText(AddressProp) == "    let address: Address"
    ensures LetText(AgeProp) == "    let age: Int"
  {
  }

  lemma LaterLetTexts()
    ensures LetText(TagsProp) == "    let tags: [String]"
    ensures LetText(UserNameProp) == "    let user_name: String"
  {
  }
}

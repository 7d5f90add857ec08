/** The decoded JSON tree the generator works on, as the platform's JSON
    decoder hands it over, and the two platform string services the generator
    relies on without defining them. */
module JsonValue {

  /** A decoded JSON value. A number carries the two facts the generator looks
      at: whether the runtime bridges it to a boolean, and its textual form. */
  datatype Json =
    | JNull
    | JBool(b: bool)
    | JNum(isBoolFlag: bool, text: string)
    | JStr(s: string)
    | JArr(items: seq<Json>)
    | JObj(members: seq<Member>)

  /** One key/value entry of a decoded object. The order of the entries is the
      decoder's and carries no meaning. */
  datatype Member = Member(key: string, value: Json)

  /** No key occurs twice in one object, as in a decoded dictionary. */
  predicate DistinctKeys(ms: seq<Member>)
  {
    forall i, j :: 0 <= i < j < |ms| ==> ms[i].key != ms[j].key
  }

  /** Number of nodes in a tree; the generator's recursion descends in it. */
  function Size(j: Json): (n: nat)
    decreases j, 0
    ensures n >= 1
  {
    match j
    case JArr(items) => 1 + ItemsSize(items)
    case JObj(ms) => 1 + MembersSize(ms)
    case _ => 1
  }

  function ItemsSize(items: seq<Json>): nat
    decreases items
  {
    if |items| == 0 then 0 else Size(items[0]) + ItemsSize(items[1..])
  }

  function MembersSize(ms: seq<Member>): nat
    decreases ms
  {
    if |ms| == 0 then 0 else Size(ms[0].value) + MembersSize(ms[1..])
  }

  /** Every member's value is strictly smaller than the object holding it. */
  lemma {:induction false} MemberSmaller(ms: seq<Member>, m: Member)
    requires m in ms
    ensures Size(m.value) <= MembersSize(ms) < Size(JObj(ms))
  {
    if ms[0] != m {
      MemberSmaller(ms[1..], m);
    }
  }

  /** The first element of an array is strictly smaller than the array. */
  lemma FirstItemSmaller(items: seq<Json>)
    requires |items| > 0
    ensures Size(items[0]) < Size(JArr(items))
  {
  }

  /** The services of the platform's string library that the generator calls
      but that are not defined here: word capitalisation of a string and the
      "is a numeric character" test on a character. */
  datatype Foundation = Foundation(capitalized: string -> string, isNumber: char -> bool)

  /** What is known of the platform's numeric-character test: every ASCII
      digit is numeric and the underscore is not. */
  predicate ValidIsNumber(isNumber: char -> bool)
  {
    (forall c: char :: '0' <= c <= '9' ==> isNumber(c)) && !isNumber('_')
  }
}

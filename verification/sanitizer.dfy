/** Turning a raw JSON key into a Swift property name
    (SourceEditorCommand.swift:179-190). */
module Sanitizer {
  import opened JsonValue

  /** The three characters the sanitiser rewrites to an underscore. */
  predicate IsSeparator(c: char)
  {
    c == ' ' || c == '-' || c == '.'
  }

  /** What the sanitiser makes of one character of the key. */
  function CleanChar(c: char): (d: char)
    ensures !IsSeparator(d)
    ensures d == c || d == '_'
  {
    if IsSeparator(c) then '_' else c
  }

  /** Every occurrence of the one-character text `from` replaced by `to`. */
  function ReplaceChar(s: string, from: char, to: char): (r: string)
    ensures |r| == |s|
    ensures forall i :: 0 <= i < |s| ==> r[i] == (if s[i] == from then to else s[i])
  {
    seq(|s|, i requires 0 <= i < |s| => if s[i] == from then to else s[i])
  }

  /** The key after the three replacements of :180-183, in their order. */
  function Cleaned(name: string): (r: string)
    ensures |r| == |name|
    ensures forall i :: 0 <= i < |name| ==> r[i] == CleanChar(name[i])
  {
    ReplaceChar(ReplaceChar(ReplaceChar(name, ' ', '_'), '-', '_'), '.', '_')
  }

  /** Whether the cleaned key begins with a character the platform calls
      numeric; only then does the sanitiser prepend an underscore. */
  predicate NeedsPrefix(isNumber: char -> bool, name: string)
  {
    |name| > 0 && isNumber(CleanChar(name[0]))
  }

  /** `makeValidPropertyName`: separators become underscores, and a name whose
      cleaned first character is numeric gets a leading underscore. */
  function MakeValidPropertyName(isNumber: char -> bool, name: string): (r: string)
    ensures forall i :: 0 <= i < |r| ==> !IsSeparator(r[i])
    ensures |r| == |name| + (if NeedsPrefix(isNumber, name) then 1 else 0)
  {
    var cleaned := Cleaned(name);
    if |cleaned| > 0 && isNumber(cleaned[0]) then "_" + cleaned else cleaned
  }

  /** The name is the key with separators turned into underscores, every
      character in place behind the optional leading underscore; the empty
      key stays empty. */
  lemma CharactersKept(isNumber: char -> bool, name: string)
    ensures var r := MakeValidPropertyName(isNumber, name);
            && (NeedsPrefix(isNumber, name) ==> r[0] == '_')
            && (forall i :: 0 <= i < |name| ==> r[|r| - |name| + i] == CleanChar(name[i]))
            && (|name| == 0 ==> r == [])
  {
  }

  /** Sanitising a sanitised name changes nothing, since the underscore is not
      numeric. */
  lemma Idempotent(isNumber: char -> bool, name: string)
    requires !isNumber('_')
    ensures MakeValidPropertyName(isNumber, MakeValidPropertyName(isNumber, name))
         == MakeValidPropertyName(isNumber, name)
  {
    var once := MakeValidPropertyName(isNumber, name);
    var twice := MakeValidPropertyName(isNumber, once);
    CharactersKept(isNumber, name);
    CharactersKept(isNumber, once);
    assert |once| > 0 ==> !isNumber(CleanChar(once[0])) by {
      if |once| > 0 && !NeedsPrefix(isNumber, name) {
        assert once[0] == CleanChar(name[0]);
      }
    }
    assert |twice| == |once|;
    forall i | 0 <= i < |once| ensures twice[i] == once[i] {
      assert twice[i] == CleanChar(once[i]);
    }
  }

  /** A key that begins with an ASCII digit always gets the underscore, and
      keeps every character behind it. */
  lemma DigitGetsUnderscore(isNumber: char -> bool, name: string)
    requires ValidIsNumber(isNumber)
    requires |name| > 0 && '0' <= name[0] <= '9'
    ensures MakeValidPropertyName(isNumber, name) == "_" + Cleaned(name)
  {
    assert CleanChar(name[0]) == name[0];
  }

  /** Keys that differ only in which separator stands at a position sanitise
      to the same name. */
  lemma SeparatorsInterchangeable(isNumber: char -> bool, a: string, b: string)
    requires |a| == |b|
    requires forall i :: 0 <= i < |a| ==> a[i] == b[i] || (IsSeparator(a[i]) && IsSeparator(b[i]))
    ensures MakeValidPropertyName(isNumber, a) == MakeValidPropertyName(isNumber, b)
  {
    assert Cleaned(a) == Cleaned(b);
  }

  /** A key with no separator and no numeric first character is used as is. */
  lemma PlainKeyUnchanged(isNumber: char -> bool, name: string)
    requires forall i :: 0 <= i < |name| ==> !IsSeparator(name[i])
    requires |name| == 0 || !isNumber(name[0])
    ensures MakeValidPropertyName(isNumber, name) == name
  {
    CharactersKept(isNumber, name);
  }
}

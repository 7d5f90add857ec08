/** String services the generator needs: the ordering of keys, decimal
    rendering of a count, joining pieces with a separator, and cutting a
    text into lines. */
module Text {

  /** Lexicographic order on strings, character by character, a proper prefix
      coming first. This is the `<` the generator sorts object keys with. */
  predicate Less(a: string, b: string)
    decreases |a|
  {
    if |a| == 0 then |b| > 0
    else if |b| == 0 then false
    else a[0] < b[0] || (a[0] == b[0] && Less(a[1..], b[1..]))
  }

  /** `Less` is the textbook lexicographic order. */
  lemma {:induction false} LessIsLexicographic(a: string, b: string)
    ensures Less(a, b) <==> LexBelow(a, b)
    decreases |a|
  {
    if |a| > 0 && |b| > 0 {
      LessIsLexicographic(a[1..], b[1..]);
      LexBelowStep(a, b);
    }
  }

  /** The textbook statement of lexicographic order: `a` is a proper prefix of
      `b`, or the two agree up to some position where `a` has the smaller
      character. */
  predicate LexBelow(a: string, b: string)
  {
    (|a| < |b| && a == b[..|a|])
    || exists k :: 0 <= k < |a| && k < |b| && a[..k] == b[..k] && a[k] < b[k]
  }

  /** Deciding `LexBelow` by the first characters and the rest. */
  lemma LexBelowStep(a: string, b: string)
    requires |a| > 0 && |b| > 0
    ensures LexBelow(a, b) <==> a[0] < b[0] || (a[0] == b[0] && LexBelow(a[1..], b[1..]))
  {
    var a', b' := a[1..], b[1..];
    if a[0] < b[0] {
      assert a[..0] == b[..0];
      assert LexBelow(a, b);
    } else if a[0] == b[0] && LexBelow(a', b') {
      if |a'| < |b'| && a' == b'[..|a'|] {
        assert a == [a[0]] + a' && b[..|a|] == [b[0]] + b'[..|a'|];
      } else {
        var k' :| 0 <= k' < |a'| && k' < |b'| && a'[..k'] == b'[..k'] && a'[k'] < b'[k'];
        var k := k' + 1;
        assert a[..k] == [a[0]] + a'[..k'] && b[..k] == [b[0]] + b'[..k'];
        assert a[k] < b[k];
      }
    }
    if LexBelow(a, b) && a[0] >= b[0] {
      if |a| < |b| && a == b[..|a|] {
        assert a' == b[..|a|][1..] == b'[..|a'|];
      } else {
        var k :| 0 <= k < |a| && k < |b| && a[..k] == b[..k] && a[k] < b[k];
        assert a[..k][0] == b[..k][0];
        assert a'[..k - 1] == a[..k][1..] == b[..k][1..] == b'[..k - 1];
      }
    }
  }

  lemma {:induction false} LessIrreflexive(a: string)
    ensures !Less(a, a)
    decreases |a|
  {
    if |a| > 0 {
      LessIrreflexive(a[1..]);
    }
  }

  lemma {:induction false} LessTransitive(a: string, b: string, c: string)
    requires Less(a, b) && Less(b, c)
    ensures Less(a, c)
    decreases |a|
  {
    if |a| > 0 && a[0] == b[0] && b[0] == c[0] {
      LessTransitive(a[1..], b[1..], c[1..]);
    }
  }

  /** Two different strings are always ordered one way or the other. */
  lemma {:induction false} LessTotal(a: string, b: string)
    requires a != b
    ensures Less(a, b) || Less(b, a)
    decreases |a|
  {
    if |a| > 0 && |b| > 0 && a[0] == b[0] {
      assert a == [a[0]] + a[1..] && b == [b[0]] + b[1..];
      LessTotal(a[1..], b[1..]);
    }
  }

  /** Any third string lies above the smaller or below the larger of an
      ordered pair; read contrapositively, "not less" is transitive. */
  lemma {:induction false} LessSplit(a: string, b: string, c: string)
    requires Less(c, a)
    ensures Less(b, a) || Less(c, b)
    decreases |a|
  {
    if |a| > 0 && |b| > 0 && |c| > 0 && a[0] == b[0] && b[0] == c[0] {
      LessSplit(a[1..], b[1..], c[1..]);
    }
  }

  lemma LessAsymmetric(a: string, b: string)
    requires Less(a, b)
    ensures !Less(b, a)
  {
    if Less(b, a) {
      LessTransitive(a, b, a);
      LessIrreflexive(a);
    }
  }

  /** Decimal digits of a natural number, without leading zeros, as Swift's
      string interpolation of an `Int` writes a non-negative value. */
  function NatToString(n: nat): (s: string)
    ensures |s| >= 1
    ensures forall i :: 0 <= i < |s| ==> '0' <= s[i] <= '9'
    ensures |s| > 1 ==> s[0] != '0'
    decreases n
  {
    if n < 10 then [DigitChar(n)] else NatToString(n / 10) + [DigitChar(n % 10)]
  }

  function DigitChar(d: nat): (c: char)
    requires d < 10
    ensures '0' <= c <= '9'
    ensures (c as int) - ('0' as int) == d
  {
    ['0', '1', '2', '3', '4', '5', '6', '7', '8', '9'][d]
  }

  /** Reads a string of decimal digits back as a number. */
  function ParseNat(s: string): nat
    requires forall i :: 0 <= i < |s| ==> '0' <= s[i] <= '9'
    decreases |s|
  {
    if |s| == 0 then 0 else 10 * ParseNat(s[..|s| - 1]) + ((s[|s| - 1] as int) - ('0' as int))
  }

  /** Reading the rendered digits back yields the number rendered. */
  lemma {:induction false} ParseNatToString(n: nat)
    ensures ParseNat(NatToString(n)) == n
    decreases n
  {
    var s := NatToString(n);
    if n >= 10 {
      var prefix := NatToString(n / 10);
      var d := DigitChar(n % 10);
      assert s == prefix + [d];
      assert s[..|s| - 1] == prefix;
      ParseNatToString(n / 10);
      assert ParseNat(s) == 10 * (n / 10) + n % 10;
    }
  }

  /** The pieces separated by `sep`, with no separator before the first piece
      or after the last one. */
  function Join(pieces: seq<string>, sep: string): (r: string)
    ensures |pieces| == 0 ==> r == []
    ensures |pieces| == 1 ==> r == pieces[0]
    ensures |pieces| > 0 ==> StartsWith(r, pieces[0])
    decreases |pieces|
  {
    if |pieces| == 0 then []
    else if |pieces| == 1 then pieces[0]
    else
      var r := pieces[0] + sep + Join(pieces[1..], sep);
      assert r[..|pieces[0]|] == pieces[0];
      r
  }

  /** Joining the pieces then appending one more is joining the extended list. */
  lemma {:induction false} JoinSnoc(pieces: seq<string>, last: string, sep: string)
    requires |pieces| >= 1
    ensures Join(pieces + [last], sep) == Join(pieces, sep) + sep + last
    decreases |pieces|
  {
    if |pieces| == 1 {
      assert pieces + [last] == [pieces[0], last];
    } else {
      assert (pieces + [last])[1..] == pieces[1..] + [last];
      JoinSnoc(pieces[1..], last, sep);
    }
  }

  /** A joined text ends with its last piece. */
  lemma JoinEndsWithLast(pieces: seq<string>, sep: string)
    requires |pieces| > 0
    ensures EndsWith(Join(pieces, sep), pieces[|pieces| - 1])
  {
    var last := pieces[|pieces| - 1];
    if |pieces| > 1 {
      var init := pieces[..|pieces| - 1];
      assert pieces == init + [last];
      JoinSnoc(init, last, sep);
      var w := Join(init, sep) + sep + last;
      assert w[|w| - |last|..] == last;
    }
  }

  /** The text cut at every line feed: one piece more than there are line
      feeds, so a text that ends with a line feed ends with an empty piece. */
  function Lines(s: string): (ls: seq<string>)
    ensures |ls| >= 1
    ensures forall i :: 0 <= i < |ls| ==> '\n' !in ls[i]
    decreases |s|
  {
    if |s| == 0 then [""]
    else
      var rest := Lines(s[1..]);
      if s[0] == '\n' then [""] + rest
      else [[s[0]] + rest[0]] + rest[1..]
  }

  /** Joining the lines with line breaks gives back the text. */
  lemma {:induction false} LinesJoin(s: string)
    ensures Join(Lines(s), "\n") == s
    decreases |s|
  {
    if |s| > 0 {
      var rest := Lines(s[1..]);
      LinesJoin(s[1..]);
      if s[0] == '\n' {
        assert ([""] + rest)[1..] == rest;
      } else if |rest| > 1 {
        var ls := [[s[0]] + rest[0]] + rest[1..];
        assert ls[1..] == rest[1..];
        assert s == [s[0]] + s[1..];
      } else {
        assert s == [s[0]] + s[1..];
      }
    }
  }

  /** A line with no break in it, then a break, starts the lines of the text. */
  lemma {:induction false} LinesAppend(a: string, b: string)
    requires '\n' !in a
    ensures Lines(a + "\n" + b) == [a] + Lines(b)
    decreases |a|
  {
    var s := a + "\n" + b;
    if |a| == 0 {
      assert s[1..] == b;
    } else {
      assert s[1..] == a[1..] + "\n" + b;
      LinesAppend(a[1..], b);
      assert [a[0]] + a[1..] == a;
    }
  }

  lemma Assoc<T>(a: seq<T>, b: seq<T>, c: seq<T>)
    ensures a + (b + c) == a + b + c
  {
  }

  /** Regrouping a framed body of two parts, and framing an empty body. */
  lemma Regroup(head: string, b1: string, b2: string, tail: string)
    ensures head + (b1 + b2) + tail == head + b1 + b2 + tail
    ensures head + [] + tail == head + tail
  {
  }

  lemma Framed(head: string, body: string, tail: string)
    ensures StartsWith(head + body + tail, head)
    ensures EndsWith(head + body + tail, tail)
  {
    var s := head + body + tail;
    assert s[..|head|] == head;
    assert s[|s| - |tail|..] == tail;
  }

  lemma EndsWithExtended(p: string, s: string, x: string, t: string)
    requires EndsWith(s, x)
    ensures EndsWith(p + s + t, x + t)
  {
    var w := p + s + t;
    assert w[|w| - |x + t|..] == s[|s| - |x|..] + t;
  }

  predicate StartsWith(s: string, prefix: string)
  {
    |prefix| <= |s| && s[..|prefix|] == prefix
  }

  predicate EndsWith(s: string, suffix: string)
  {
    |suffix| <= |s| && s[|s| - |suffix|..] == suffix
  }
}

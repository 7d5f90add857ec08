/** Ordering an object's members by raw key, which the generator does before
    it writes any field (SourceEditorCommand.swift:94). */
module Sorting {
  import opened JsonValue
  import opened Text

  /** No member's key comes after the key of a member following it. */
  predicate SortedByKey(s: seq<Member>)
  {
    forall i, j :: 0 <= i < j < |s| ==> !Less(s[j].key, s[i].key)
  }

  /** Keys strictly ascend, which for distinct keys is the only sorted order. */
  predicate Ascending(s: seq<Member>)
  {
    forall i, j :: 0 <= i < j < |s| ==> Less(s[i].key, s[j].key)
  }

  /** Places `m` in front of the first member whose key is not smaller. */
  function Insert(m: Member, s: seq<Member>): (r: seq<Member>)
    requires SortedByKey(s)
    ensures SortedByKey(r)
    ensures multiset(r) == multiset(s) + multiset{m}
    decreases |s|
  {
    if |s| == 0 || !Less(s[0].key, m.key) then
      InsertFront(m, s);
      [m] + s
    else
      var rest := Insert(m, s[1..]);
      assert s == [s[0]] + s[1..];
      InsertBehind(m, s, rest);
      [s[0]] + rest
  }

  lemma InsertFront(m: Member, s: seq<Member>)
    requires SortedByKey(s)
    requires |s| == 0 || !Less(s[0].key, m.key)
    ensures SortedByKey([m] + s)
  {
    forall j | 0 < j < |s| ensures !Less(s[j].key, m.key) {
      if Less(s[j].key, m.key) {
        LessSplit(m.key, s[0].key, s[j].key);
      }
    }
  }

  lemma InsertBehind(m: Member, s: seq<Member>, rest: seq<Member>)
    requires SortedByKey(s) && SortedByKey(rest)
    requires |s| > 0 && Less(s[0].key, m.key)
    requires multiset(rest) == multiset(s[1..]) + multiset{m}
    ensures SortedByKey([s[0]] + rest)
  {
    forall x | x in rest ensures !Less(x.key, s[0].key) {
      assert x in multiset(rest);
      if x == m {
        LessAsymmetric(s[0].key, m.key);
      } else {
        assert x in s[1..];
      }
    }
  }

  /** The members ordered by key, as `dict.sorted(by: { $0.key < $1.key })`
      leaves them. */
  function SortByKey(ms: seq<Member>): (r: seq<Member>)
    ensures SortedByKey(r)
    ensures multiset(r) == multiset(ms)
    ensures |r| == |ms|
    decreases |ms|
  {
    if |ms| == 0 then []
    else
      assert ms == [ms[0]] + ms[1..];
      Insert(ms[0], SortByKey(ms[1..]))
  }

  lemma InSorted(ms: seq<Member>, m: Member)
    requires m in SortByKey(ms)
    ensures m in ms
  {
    assert m in multiset(SortByKey(ms));
  }

  /** Inserting a member whose key is new keeps keys strictly ascending. */
  lemma {:induction false} InsertAscending(m: Member, s: seq<Member>)
    requires SortedByKey(s) && Ascending(s)
    requires forall x :: x in s ==> x.key != m.key
    ensures Ascending(Insert(m, s))
    decreases |s|
  {
    if |s| == 0 || !Less(s[0].key, m.key) {
      if |s| > 0 {
        LessTotal(m.key, s[0].key);
        forall j | 0 < j < |s| ensures Less(m.key, s[j].key) {
          LessTransitive(m.key, s[0].key, s[j].key);
        }
      }
    } else {
      InsertAscending(m, s[1..]);
      var r := Insert(m, s);
      var rest := Insert(m, s[1..]);
      assert r == [s[0]] + rest;
      forall x | x in rest ensures Less(s[0].key, x.key) {
        assert x in multiset(rest);
        if x != m {
          assert x in s[1..];
        }
      }
    }
  }

  /** With distinct keys, sorting yields strictly ascending keys. */
  lemma {:induction false} SortAscending(ms: seq<Member>)
    requires DistinctKeys(ms)
    ensures Ascending(SortByKey(ms))
    decreases |ms|
  {
    if |ms| > 0 {
      var tail := ms[1..];
      assert DistinctKeys(tail);
      SortAscending(tail);
      forall x | x in SortByKey(tail) ensures x.key != ms[0].key {
        InSorted(tail, x);
      }
      InsertAscending(ms[0], SortByKey(tail));
    }
  }

  /** In a strictly ascending arrangement the first member has the smallest
      key, so two such arrangements of the same members start alike. */
  lemma SameFirst(a: seq<Member>, b: seq<Member>)
    requires Ascending(a) && Ascending(b)
    requires |a| > 0 && multiset(a) == multiset(b)
    ensures |b| > 0 && a[0] == b[0]
  {
    assert a[0] in multiset(b);
    assert b[0] in multiset(a);
    assert a[0] in b && b[0] in a;
    var j :| 0 <= j < |a| && a[j] == b[0];
    var k :| 0 <= k < |b| && b[k] == a[0];
    if j > 0 && k > 0 {
      LessAsymmetric(a[0].key, b[0].key);
    }
  }

  lemma TailMultiset(a: seq<Member>)
    requires |a| > 0
    ensures multiset(a[1..]) == multiset(a) - multiset{a[0]}
  {
    assert a == [a[0]] + a[1..];
  }

  /** Two strictly ascending arrangements of the same members are equal. */
  lemma {:induction false} AscendingUnique(a: seq<Member>, b: seq<Member>)
    requires Ascending(a) && Ascending(b)
    requires multiset(a) == multiset(b)
    ensures a == b
    decreases |a|
  {
    if |a| == 0 {
      assert |multiset(b)| == 0;
    } else {
      SameFirst(a, b);
      TailMultiset(a);
      TailMultiset(b);
      AscendingUnique(a[1..], b[1..]);
    }
  }

  /** Sorting is characterised by its result alone: for distinct keys, the
      strictly ascending rearrangement of the members is the sorted one. */
  lemma SortCharacterised(ms: seq<Member>, s: seq<Member>)
    requires DistinctKeys(ms)
    requires Ascending(s) && multiset(s) == multiset(ms)
    ensures SortByKey(ms) == s
  {
    SortAscending(ms);
    AscendingUnique(SortByKey(ms), s);
  }

  /** The order in which the decoder delivered the keys does not matter: any
      rearrangement of an object's members sorts to the same sequence. */
  lemma SortIgnoresDocumentOrder(ms1: seq<Member>, ms2: seq<Member>)
    requires DistinctKeys(ms1)
    requires multiset(ms1) == multiset(ms2)
    ensures SortByKey(ms1) == SortByKey(ms2)
  {
    SortAscending(ms1);
    assert DistinctKeys(ms2) by {
      forall i, j | 0 <= i < j < |ms2| ensures ms2[i].key != ms2[j].key {
        assert ms2[i] in multiset(ms1) && ms2[j] in multiset(ms1);
        var p :| 0 <= p < |ms1| && ms1[p] == ms2[i];
        var q :| 0 <= q < |ms1| && ms1[q] == ms2[j];
        if ms2[i] == ms2[j] {
          assert multiset(ms2)[ms2[i]] >= 2 by {
            assert ms2 == ms2[..j] + [ms2[j]] + ms2[j + 1..];
            assert ms2[i] in ms2[..j];
          }
          assert multiset(ms1)[ms1[p]] >= 2;
          AtMostOnce(ms1, p);
          assert false;
        } else if p == q {
          assert false;
        }
      }
    }
    SortAscending(ms2);
    AscendingUnique(SortByKey(ms1), SortByKey(ms2));
  }

  /** A member of a list with distinct keys occurs exactly once. */
  lemma {:induction false} AtMostOnce(ms: seq<Member>, p: int)
    requires DistinctKeys(ms)
    requires 0 <= p < |ms|
    ensures multiset(ms)[ms[p]] == 1
    decreases |ms|
  {
    assert ms == [ms[0]] + ms[1..];
    if p == 0 {
      assert ms[0] !in ms[1..];
      assert multiset(ms[1..])[ms[0]] == 0;
    } else {
      assert DistinctKeys(ms[1..]);
      AtMostOnce(ms[1..], p - 1);
      assert ms[1..][p - 1] == ms[p];
      assert ms[p] != ms[0];
    }
  }
}

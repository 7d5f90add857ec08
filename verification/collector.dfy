/** The recursive collector `collectNestedStructs`
    (SourceEditorCommand.swift:83-123): one struct per object shape, named
    children first, guarded by the set of names already processed. The
    mutable set and struct list of the source are threaded through as an
    argument and a result. */
module Collector {
  import opened JsonValue
  import opened Sorting
  import opened Sanitizer
  import opened Classifier

  /** One `let` line of a struct. */
  datatype Field = Field(name: string, typ: FieldType)

  /** One generated struct declaration. */
  datatype Decl = Decl(name: string, fields: seq<Field>)

  /** The names of the declarations, as a set. */
  function NameSet(decls: seq<Decl>): set<string>
  {
    set i | 0 <= i < |decls| :: decls[i].name
  }

  /** No two declarations share a name. */
  predicate DistinctNames(decls: seq<Decl>)
  {
    forall i, j :: 0 <= i < j < |decls| ==> decls[i].name != decls[j].name
  }

  /** The names of the queued objects, as a set. */
  function QueueNames(queue: seq<Pending>): set<string>
  {
    set i | 0 <= i < |queue| :: queue[i].name
  }

  /** The generated struct names the fields refer to. */
  function FieldRefs(fields: seq<Field>): set<string>
    decreases |fields|
  {
    if |fields| == 0 then {} else Refs(fields[0].typ) + FieldRefs(fields[1..])
  }

  /** Every struct name a declaration refers to lies in `names`. */
  predicate RefsWithin(decls: seq<Decl>, names: set<string>)
  {
    forall i :: 0 <= i < |decls| ==> FieldRefs(decls[i].fields) <= names
  }

  /** The field for one member and the objects it queues (:95-110): an
      object becomes a struct named by the capitalised property name, an
      array is typed by `ArrayType`, anything else by `SwiftType`. */
  function MemberField(f: Foundation, m: Member): (r: (Field, seq<Pending>))
    ensures r.0.name == MakeValidPropertyName(f.isNumber, m.key)
    ensures Refs(r.0.typ) == QueueNames(r.1)
    ensures |r.1| <= 1
    ensures |r.1| == 1 <==> m.value.JObj? || (m.value.JArr? && |m.value.items| > 0 && m.value.items[0].JObj?)
    ensures m.value.JObj? ==>
              r.0.typ == Named(f.capitalized(r.0.name))
              && r.1[0].name == f.capitalized(r.0.name) && r.1[0].members == m.value.members
    ensures m.value.JArr? ==> (r.0.typ, r.1) == ArrayType(f.capitalized, r.0.name, m.value.items)
    ensures m.value.JArr? && |m.value.items| > 0 && m.value.items[0].JObj? ==>
              r.0.typ == ArrayOfNamed(ElementName(f.capitalized, r.0.name))
              && r.1 == [Pending(m.value.items[0].members, ElementName(f.capitalized, r.0.name))]
    ensures m.value.JArr? && !(|m.value.items| > 0 && m.value.items[0].JObj?) ==>
              r.0.typ == Plain(SwiftType(m.value)) && r.1 == []
    ensures !m.value.JObj? && !m.value.JArr? ==> r.0.typ == Plain(SwiftType(m.value))
  {
    var prop := MakeValidPropertyName(f.isNumber, m.key);
    match m.value
    case JObj(ms) =>
      var name := f.capitalized(prop);
      QueueNamesOne(Pending(ms, name));
      (Field(prop, Named(name)), [Pending(ms, name)])
    case JArr(items) =>
      var (t, queued) := ArrayType(f.capitalized, prop, items);
      (Field(prop, t), queued)
    case _ =>
      (Field(prop, Plain(SwiftType(m.value))), [])
  }

  /** A queued object is strictly smaller than the member it came from. */
  lemma QueuedSmaller(f: Foundation, m: Member, q: Pending)
    requires q in MemberField(f, m).1
    ensures MembersSize(q.members) < Size(m.value)
  {
    if m.value.JArr? {
      FirstItemSmaller(m.value.items);
    }
  }

  /** The pieces one after another. */
  function Concat<T>(parts: seq<seq<T>>): seq<T>
    decreases |parts|
  {
    if |parts| == 0 then [] else parts[0] + Concat(parts[1..])
  }

  /** What each member queues, member by member. */
  function MemberQueues(f: Foundation, s: seq<Member>): (qs: seq<seq<Pending>>)
    ensures |qs| == |s|
    ensures forall i :: 0 <= i < |s| ==> qs[i] == MemberField(f, s[i]).1
  {
    seq(|s|, i requires 0 <= i < |s| => MemberField(f, s[i]).1)
  }

  lemma MemberQueuesCons(f: Foundation, s: seq<Member>)
    requires |s| > 0
    ensures MemberQueues(f, s) == [MemberField(f, s[0]).1] + MemberQueues(f, s[1..])
  {
    assert MemberQueues(f, s)[1..] == MemberQueues(f, s[1..]);
  }

  /** The fields of a struct, one per member in the order given, and the
      objects queued while writing them: what each member queues, in member
      order (:94-111). */
  function Fields(f: Foundation, s: seq<Member>): (r: (seq<Field>, seq<Pending>))
    ensures |r.0| == |s|
    ensures forall i :: 0 <= i < |s| ==> r.0[i] == MemberField(f, s[i]).0
    ensures r.1 == Concat(MemberQueues(f, s))
    ensures FieldRefs(r.0) == QueueNames(r.1)
    ensures forall q :: q in r.1 ==> exists m :: m in s && q in MemberField(f, m).1
    decreases |s|
  {
    if |s| == 0 then ([], [])
    else
      var (field, queued) := MemberField(f, s[0]);
      var (fields, rest) := Fields(f, s[1..]);
      QueuedFromTail(f, s, rest);
      QueueNamesConcat(queued, rest);
      MemberQueuesCons(f, s);
      ([field] + fields, queued + rest)
  }

  lemma QueuedFromTail(f: Foundation, s: seq<Member>, rest: seq<Pending>)
    requires |s| > 0
    requires forall q :: q in rest ==> exists m :: m in s[1..] && q in MemberField(f, m).1
    ensures forall q :: q in rest ==> exists m :: m in s && q in MemberField(f, m).1
  {
    forall q | q in rest ensures exists m :: m in s && q in MemberField(f, m).1 {
      var m :| m in s[1..] && q in MemberField(f, m).1;
      assert m in s;
    }
  }

  lemma QueueNamesConcat(a: seq<Pending>, b: seq<Pending>)
    ensures QueueNames(a + b) == QueueNames(a) + QueueNames(b)
  {
    forall n | n in QueueNames(a) + QueueNames(b) ensures n in QueueNames(a + b) {
      if n in QueueNames(a) {
        var i :| 0 <= i < |a| && a[i].name == n;
        assert (a + b)[i] == a[i];
      } else {
        var i :| 0 <= i < |b| && b[i].name == n;
        assert (a + b)[|a| + i] == b[i];
      }
    }
  }

  /** Every object the fields of `ms` queue is strictly smaller than `ms`. */
  lemma QueueSmaller(f: Foundation, ms: seq<Member>)
    ensures forall q :: q in Fields(f, SortByKey(ms)).1 ==> MembersSize(q.members) < MembersSize(ms)
  {
    forall q | q in Fields(f, SortByKey(ms)).1 ensures MembersSize(q.members) < MembersSize(ms) {
      var m :| m in SortByKey(ms) && q in MemberField(f, m).1;
      InSorted(ms, m);
      MemberSmaller(ms, m);
      QueuedSmaller(f, m, q);
    }
  }

  /** The object `o` is claimed under the struct name `n` within the object
      `ms` queued under `root`: it is `ms` itself under `root`, or it is
      claimed within an object that one of the members of `ms` queues, under
      the name that member queues it with. */
  predicate ClaimedIn(f: Foundation, o: seq<Member>, n: string, ms: seq<Member>, root: string)
    decreases MembersSize(ms), 1
  {
    (o == ms && n == root) || ClaimedInMembers(f, o, n, ms)
  }

  /** `o` is claimed under `n` through one of the members `ms`. */
  predicate ClaimedInMembers(f: Foundation, o: seq<Member>, n: string, ms: seq<Member>)
    decreases MembersSize(ms), 0
  {
    |ms| > 0
    && (var queued := MemberField(f, ms[0]).1;
        (|queued| == 1
         && (QueuedSmaller(f, ms[0], queued[0]);
             ClaimedIn(f, o, n, queued[0].members, queued[0].name)))
        || ClaimedInMembers(f, o, n, ms[1..]))
  }

  /** The declaration has the fields of an object claimed under the
      declaration's own name within `ms` queued under `root`. */
  ghost predicate FromTree(f: Foundation, d: Decl, ms: seq<Member>, root: string)
  {
    exists o {:trigger ClaimedIn(f, o, d.name, ms, root)} ::
      ClaimedIn(f, o, d.name, ms, root) && d.fields == Fields(f, SortByKey(o)).0
  }

  /** The declaration has the fields of an object claimed under the
      declaration's own name within one of the queued objects. */
  ghost predicate FromQueue(f: Foundation, d: Decl, queue: seq<Pending>)
  {
    exists j, o {:trigger ClaimedIn(f, o, d.name, queue[j].members, queue[j].name)} ::
      0 <= j < |queue| && ClaimedIn(f, o, d.name, queue[j].members, queue[j].name)
      && d.fields == Fields(f, SortByKey(o)).0
  }

  ghost predicate FieldsFromTree(f: Foundation, decls: seq<Decl>, ms: seq<Member>, root: string)
  {
    forall i :: 0 <= i < |decls| ==> FromTree(f, decls[i], ms, root)
  }

  ghost predicate FieldsFromQueue(f: Foundation, decls: seq<Decl>, queue: seq<Pending>)
  {
    forall i :: 0 <= i < |decls| ==> FromQueue(f, decls[i], queue)
  }

  /** `collectNestedStructs` on the object `ms` under `name`, with `done` the
      names processed so far. Returns the structs appended and the names
      processed afterwards. */
  function Collect(f: Foundation, ms: seq<Member>, name: string, done: set<string>)
    : (r: (seq<Decl>, set<string>))
    decreases MembersSize(ms), 1
    ensures done <= r.1
    ensures name in done ==> r == ([], done)
    ensures name in r.1
    ensures DistinctNames(r.0)
    ensures NameSet(r.0) == r.1 - done
    ensures RefsWithin(r.0, r.1)
    ensures name !in done ==>
              |r.0| > 0 && r.0[|r.0| - 1].name == name
              && |r.0[|r.0| - 1].fields| == |ms|
              && (forall n :: n in FieldRefs(r.0[|r.0| - 1].fields) && n !in done && n != name
                    ==> n in NameSet(r.0[..|r.0| - 1]))
  {
    if name in done then ([], done)
    else
      var (fields, queue) := Fields(f, SortByKey(ms));
      QueueSmaller(f, ms);
      var (children, done') := CollectQueue(f, queue, done + {name}, MembersSize(ms));
      var decl := Decl(name, fields);
      var decls := children + [decl];
      ParentAfterChildren(children, decl, done, done');
      (decls, done')
  }

  /** One step of `Collect` for a name not yet processed, in terms of its
      parts: the sorted members, their fields and queue, and what collecting
      the queue appended. */
  lemma CollectStep(f: Foundation, ms: seq<Member>, name: string, done: set<string>,
                    sorted: seq<Member>, fields: seq<Field>, queue: seq<Pending>,
                    children: seq<Decl>, done': set<string>)
    requires name !in done
    requires SortByKey(ms) == sorted
    requires Fields(f, sorted) == (fields, queue)
    requires forall q :: q in queue ==> MembersSize(q.members) < MembersSize(ms)
    requires CollectQueue(f, queue, done + {name}, MembersSize(ms)) == (children, done')
    ensures Collect(f, ms, name, done) == (children + [Decl(name, fields)], done')
  {
  }

  /** The loop of :115-120: each queued object collected in queue order,
      threading the processed names through. */
  function CollectQueue(f: Foundation, queue: seq<Pending>, done: set<string>, ghost bound: nat)
    : (r: (seq<Decl>, set<string>))
    requires forall q :: q in queue ==> MembersSize(q.members) < bound
    decreases bound, 0, |queue|
    ensures done <= r.1
    ensures QueueNames(queue) <= r.1
    ensures DistinctNames(r.0)
    ensures NameSet(r.0) == r.1 - done
    ensures RefsWithin(r.0, r.1)
  {
    if |queue| == 0 then ([], done)
    else
      var (first, done1) := Collect(f, queue[0].members, queue[0].name, done);
      var (rest, done2) := CollectQueue(f, queue[1..], done1, bound);
      QueueNamesConcat([queue[0]], queue[1..]);
      assert queue == [queue[0]] + queue[1..];
      QueueNamesOne(queue[0]);
      SiblingsInOrder(first, rest, done, done1, done2);
      (first + rest, done2)
  }

  /** The objects queued for the sorted members of `ms`, and everything
      reached from them, lie in the tree of `ms`. */
  lemma QueueInTree(f: Foundation, ms: seq<Member>, root: string, queue: seq<Pending>, children: seq<Decl>)
    requires queue == Fields(f, SortByKey(ms)).1
    requires FieldsFromQueue(f, children, queue)
    ensures FieldsFromTree(f, children, ms, root)
  {
    forall i | 0 <= i < |children| ensures FromTree(f, children[i], ms, root) {
      var d := children[i];
      assert FromQueue(f, d, queue);
      var j, o :| 0 <= j < |queue| && ClaimedIn(f, o, d.name, queue[j].members, queue[j].name)
                  && d.fields == Fields(f, SortByKey(o)).0;
      QueuedClaimed(f, ms, root, queue[j], o, d.name);
    }
  }

  /** What is claimed within a queued object is claimed within `ms`. */
  lemma QueuedClaimed(f: Foundation, ms: seq<Member>, root: string, q: Pending, o: seq<Member>, n: string)
    requires q in Fields(f, SortByKey(ms)).1
    requires ClaimedIn(f, o, n, q.members, q.name)
    ensures ClaimedIn(f, o, n, ms, root)
  {
    var m :| m in SortByKey(ms) && q in MemberField(f, m).1;
    InSorted(ms, m);
    MemberClaims(f, o, n, ms, m, q);
  }

  /** What is claimed within the object a member queues is claimed through
      the members. */
  lemma {:induction false} MemberClaims(f: Foundation, o: seq<Member>, n: string, ms: seq<Member>,
                                        m: Member, q: Pending)
    requires m in ms && q in MemberField(f, m).1
    requires ClaimedIn(f, o, n, q.members, q.name)
    ensures ClaimedInMembers(f, o, n, ms)
    decreases |ms|
  {
    if ms[0] == m {
      assert MemberField(f, ms[0]).1 == [q];
    } else {
      assert m in ms[1..];
      MemberClaims(f, o, n, ms[1..], m, q);
    }
  }

  lemma FieldsFromTreeSnoc(f: Foundation, children: seq<Decl>, decl: Decl, ms: seq<Member>)
    requires FieldsFromTree(f, children, ms, decl.name)
    requires decl.fields == Fields(f, SortByKey(ms)).0
    ensures FieldsFromTree(f, children + [decl], ms, decl.name)
  {
    assert ClaimedIn(f, ms, decl.name, ms, decl.name);
    forall i | 0 <= i < |children + [decl]| ensures FromTree(f, (children + [decl])[i], ms, decl.name) {
      if i < |children| {
        assert (children + [decl])[i] == children[i];
      } else {
        assert (children + [decl])[i] == decl;
      }
    }
  }

  /** What the first queued object and the rest of the queue appended comes
      from the queue. */
  lemma FromQueueConcat(f: Foundation, first: seq<Decl>, rest: seq<Decl>, queue: seq<Pending>)
    requires |queue| > 0
    requires FieldsFromTree(f, first, queue[0].members, queue[0].name)
    requires FieldsFromQueue(f, rest, queue[1..])
    ensures FieldsFromQueue(f, first + rest, queue)
  {
    forall i | 0 <= i < |first + rest| ensures FromQueue(f, (first + rest)[i], queue) {
      var d := (first + rest)[i];
      if i < |first| {
        assert d == first[i];
        assert FromTree(f, d, queue[0].members, queue[0].name);
        var o :| ClaimedIn(f, o, d.name, queue[0].members, queue[0].name)
                 && d.fields == Fields(f, SortByKey(o)).0;
        assert 0 <= 0 < |queue| && ClaimedIn(f, o, d.name, queue[0].members, queue[0].name);
      } else {
        assert d == rest[i - |first|];
        assert FromQueue(f, d, queue[1..]);
        var j, o :| 0 <= j < |queue[1..]| && ClaimedIn(f, o, d.name, queue[1..][j].members, queue[1..][j].name)
                    && d.fields == Fields(f, SortByKey(o)).0;
        assert queue[1..][j] == queue[j + 1];
        assert 0 <= j + 1 < |queue| && ClaimedIn(f, o, d.name, queue[j + 1].members, queue[j + 1].name);
      }
    }
  }

  /** Every struct collected for `ms` under `name`, not only the last, has
      the fields of the sorted members of an object claimed under that
      struct's own name: `ms` itself for `name`, or an object queued under
      the struct's name somewhere below `ms`. */
  lemma {:induction false} CollectFieldsFromTree(f: Foundation, ms: seq<Member>, name: string, done: set<string>)
    decreases MembersSize(ms), 1
    ensures FieldsFromTree(f, Collect(f, ms, name, done).0, ms, name)
  {
    if name !in done {
      var (fields, queue) := Fields(f, SortByKey(ms));
      QueueSmaller(f, ms);
      var (children, done') := CollectQueue(f, queue, done + {name}, MembersSize(ms));
      CollectQueueFieldsFromTree(f, queue, done + {name}, MembersSize(ms));
      CollectStep(f, ms, name, done, SortByKey(ms), fields, queue, children, done');
      QueueInTree(f, ms, name, queue, children);
      FieldsFromTreeSnoc(f, children, Decl(name, fields), ms);
    }
  }

  /** Every struct collected for a queue has the fields of an object claimed
      under the struct's own name within one of the queued objects. */
  lemma {:induction false} CollectQueueFieldsFromTree(f: Foundation, queue: seq<Pending>, done: set<string>, bound: nat)
    requires forall q :: q in queue ==> MembersSize(q.members) < bound
    decreases bound, 0, |queue|
    ensures FieldsFromQueue(f, CollectQueue(f, queue, done, bound).0, queue)
  {
    if |queue| > 0 {
      var (first, done1) := Collect(f, queue[0].members, queue[0].name, done);
      CollectFieldsFromTree(f, queue[0].members, queue[0].name, done);
      CollectQueueFieldsFromTree(f, queue[1..], done1, bound);
      FromQueueConcat(f, first, CollectQueue(f, queue[1..], done1, bound).0, queue);
    }
  }

  /** Appending the parent after its children keeps the names distinct and
      accounted for, and leaves the parent last. */
  lemma ParentAfterChildren(children: seq<Decl>, decl: Decl, done: set<string>, done': set<string>)
    requires decl.name !in done
    requires done + {decl.name} <= done'
    requires DistinctNames(children) && NameSet(children) == done' - (done + {decl.name})
    requires RefsWithin(children, done') && FieldRefs(decl.fields) <= done'
    ensures var decls := children + [decl];
            && DistinctNames(decls)
            && NameSet(decls) == done' - done
            && RefsWithin(decls, done')
            && decls[..|decls| - 1] == children
  {
    var decls := children + [decl];
    assert decls[..|decls| - 1] == children;
    NameSetConcat(children, [decl]);
    NameSetOne(decl);
    DistinctConcat(children, [decl]);
    assert RefsWithin([decl], done');
    RefsWithinConcat(children, [decl], done');
  }

  /** Concatenating what two consecutive collections appended. */
  lemma SiblingsInOrder(first: seq<Decl>, rest: seq<Decl>, done: set<string>, done1: set<string>, done2: set<string>)
    requires done <= done1 <= done2
    requires DistinctNames(first) && NameSet(first) == done1 - done
    requires DistinctNames(rest) && NameSet(rest) == done2 - done1
    requires RefsWithin(first, done1) && RefsWithin(rest, done2)
    ensures DistinctNames(first + rest)
    ensures NameSet(first + rest) == done2 - done
    ensures RefsWithin(first + rest, done2)
  {
    NameSetConcat(first, rest);
    DistinctConcat(first, rest);
    RefsWithinConcat(first, rest, done2);
  }

  lemma QueueNamesOne(q: Pending)
    ensures QueueNames([q]) == {q.name}
  {
    assert [q][0] == q;
  }

  lemma NameSetOne(d: Decl)
    ensures NameSet([d]) == {d.name}
  {
    assert [d][0] == d;
  }

  lemma NameSetConcat(a: seq<Decl>, b: seq<Decl>)
    ensures NameSet(a + b) == NameSet(a) + NameSet(b)
  {
    forall n | n in NameSet(a) + NameSet(b) ensures n in NameSet(a + b) {
      if n in NameSet(a) {
        var i :| 0 <= i < |a| && a[i].name == n;
        assert (a + b)[i] == a[i];
      } else {
        var i :| 0 <= i < |b| && b[i].name == n;
        assert (a + b)[|a| + i] == b[i];
      }
    }
  }

  lemma DistinctConcat(a: seq<Decl>, b: seq<Decl>)
    requires DistinctNames(a) && DistinctNames(b)
    requires NameSet(a) !! NameSet(b)
    ensures DistinctNames(a + b)
  {
    forall i, j | 0 <= i < j < |a + b| ensures (a + b)[i].name != (a + b)[j].name {
      if i < |a| && j >= |a| {
        assert (a + b)[i].name in NameSet(a);
        assert (a + b)[j] == b[j - |a|];
        assert (a + b)[j].name in NameSet(b);
      }
    }
  }

  lemma RefsWithinConcat(a: seq<Decl>, b: seq<Decl>, names: set<string>)
    requires RefsWithin(a, names) && RefsWithin(b, names)
    ensures RefsWithin(a + b, names)
  {
    forall i | 0 <= i < |a + b| ensures FieldRefs((a + b)[i].fields) <= names {
      if i >= |a| {
        assert (a + b)[i] == b[i - |a|];
      }
    }
  }

  /** Distinct names: as many declarations as names. */
  lemma {:induction false} DistinctCount(decls: seq<Decl>)
    requires DistinctNames(decls)
    ensures |NameSet(decls)| == |decls|
    decreases |decls|
  {
    if |decls| > 0 {
      var init := decls[..|decls| - 1];
      var last := decls[|decls| - 1];
      assert decls == init + [last];
      DistinctCount(init);
      NameSetConcat(init, [last]);
      NameSetOne(last);
      assert last.name !in NameSet(init);
    }
  }

  /** Every name newly inserted into the processed set yields exactly one
      struct, and no struct is emitted twice. */
  lemma OneStructPerNewName(f: Foundation, ms: seq<Member>, name: string, done: set<string>)
    ensures |Collect(f, ms, name, done).0| == |Collect(f, ms, name, done).1 - done|
  {
    DistinctCount(Collect(f, ms, name, done).0);
  }

  /** The struct for `name` has exactly one field per key, in strictly
      ascending raw-key order: field i is the field of the member with the
      i-th smallest key. */
  lemma StructFollowsSortedKeys(f: Foundation, ms: seq<Member>, name: string, done: set<string>)
    requires DistinctKeys(ms)
    requires name !in done
    ensures var decls := Collect(f, ms, name, done).0;
            var root := decls[|decls| - 1];
            var s := SortByKey(ms);
            && multiset(s) == multiset(ms)
            && Ascending(s)
            && |root.fields| == |s|
            && (forall i :: 0 <= i < |s| ==>
                  root.fields[i] == MemberField(f, s[i]).0
                  && root.fields[i].name == MakeValidPropertyName(f.isNumber, s[i].key))
  {
    SortAscending(ms);
  }

  /** Collecting from scratch under a root name: every struct name any
      emitted field refers to is itself emitted (possibly with the shape of
      the first object that claimed the name). */
  lemma RootCollectionClosed(f: Foundation, ms: seq<Member>, root: string)
    ensures var decls := Collect(f, ms, root, {}).0;
            && |decls| > 0 && decls[|decls| - 1].name == root
            && DistinctNames(decls)
            && RefsWithin(decls, NameSet(decls))
  {
  }

  /** Of two queued objects with the same struct name, the first one
      processed decides the struct: collecting the second appends nothing
      and processes no further names. */
  lemma FirstClaimWins(f: Foundation, p: Pending, q: Pending, done: set<string>, bound: nat)
    requires MembersSize(p.members) < bound && MembersSize(q.members) < bound
    requires p.name == q.name
    ensures CollectQueue(f, [p, q], done, bound) == CollectQueue(f, [p], done, bound)
  {
    var (first, done1) := Collect(f, p.members, p.name, done);
    assert [p, q][1..] == [q];
    assert [q][1..] == [];
    assert Collect(f, q.members, q.name, done1) == ([], done1);
    assert CollectQueue(f, [q], done1, bound) == ([], done1);
    assert [p][1..] == [];
  }

  /** An object whose sorted members queue two objects under one struct name
      gets its children from the first of them only; the members of the
      second never reach any struct. */
  lemma SecondClaimIgnored(f: Foundation, ms: seq<Member>, name: string, done: set<string>,
                           fields: seq<Field>, p: Pending, q: Pending)
    requires name !in done
    requires Fields(f, SortByKey(ms)) == (fields, [p, q])
    requires p.name == q.name
    ensures Collect(f, ms, name, done).0
            == Collect(f, p.members, p.name, done + {name}).0 + [Decl(name, fields)]
  {
    var queue := [p, q];
    QueueSmaller(f, ms);
    assert p in queue && q in queue;
    var bound := MembersSize(ms);
    FirstClaimWins(f, p, q, done + {name}, bound);
    var (children, done') := CollectQueue(f, queue, done + {name}, bound);
    CollectStep(f, ms, name, done, SortByKey(ms), fields, queue, children, done');
    var (first, done1) := Collect(f, p.members, p.name, done + {name});
    assert [p][1..] == [];
    assert CollectQueue(f, [p], done + {name}, bound) == (first + [], done1);
    assert first + [] == first;
  }

  /** Collecting from scratch ends with the struct named by the root. */
  lemma RootLast(f: Foundation, ms: seq<Member>, root: string)
    ensures var decls := Collect(f, ms, root, {}).0;
            |decls| > 0 && decls[|decls| - 1].name == root
  {
  }

  /** Two keys that sanitise to the same property name are both written:
      the struct gets two fields of that name, since nothing merges or
      renames them. */
  lemma CollidingKeysBothKept(f: Foundation, ms: seq<Member>, name: string, done: set<string>,
                              m1: Member, m2: Member)
    requires name !in done
    requires m1 in ms && m2 in ms && m1.key != m2.key
    requires MakeValidPropertyName(f.isNumber, m1.key) == MakeValidPropertyName(f.isNumber, m2.key)
    ensures var decls := Collect(f, ms, name, done).0;
            var fields := decls[|decls| - 1].fields;
            exists a, b :: 0 <= a < b < |fields|
                           && fields[a].name == MakeValidPropertyName(f.isNumber, m1.key)
                           && fields[b].name == MakeValidPropertyName(f.isNumber, m1.key)
  {
    var i, j := SortedPositions(ms, m1, m2);
    var decls := Collect(f, ms, name, done).0;
    StructFieldNames(f, ms, name, done);
    TwoFieldsNamed(decls[|decls| - 1].fields, i, j, MakeValidPropertyName(f.isNumber, m1.key));
  }

  /** Field i of the struct for `name` carries the sanitised i-th smallest
      key. */
  lemma StructFieldNames(f: Foundation, ms: seq<Member>, name: string, done: set<string>)
    requires name !in done
    ensures var decls := Collect(f, ms, name, done).0;
            var fields := decls[|decls| - 1].fields;
            var s := SortByKey(ms);
            |fields| == |s|
            && forall i :: 0 <= i < |s| ==> fields[i].name == MakeValidPropertyName(f.isNumber, s[i].key)
  {
  }

  /** Where two members with different keys stand after sorting. */
  lemma SortedPositions(ms: seq<Member>, m1: Member, m2: Member) returns (i: nat, j: nat)
    requires m1 in ms && m2 in ms && m1.key != m2.key
    ensures var s := SortByKey(ms);
            i < |s| && j < |s| && i != j && s[i] == m1 && s[j] == m2
  {
    var s := SortByKey(ms);
    assert m1 in multiset(s) && m2 in multiset(s);
    i :| 0 <= i < |s| && s[i] == m1;
    j :| 0 <= j < |s| && s[j] == m2;
  }

  lemma TwoFieldsNamed(fields: seq<Field>, i: nat, j: nat, n: string)
    requires i < |fields| && j < |fields| && i != j
    requires fields[i].name == n && fields[j].name == n
    ensures exists a, b :: 0 <= a < b < |fields| && fields[a].name == n && fields[b].name == n
  {
    if i < j {
      assert 0 <= i < j < |fields|;
    } else {
      assert 0 <= j < i < |fields|;
    }
  }
}

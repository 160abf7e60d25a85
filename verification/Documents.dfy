/** JSON documents: merging one into another, and the records a document is indexed into. */
module Documents {
  import opened Wrappers
  import opened Collections
  import opened ByteOrder

  /** A value: null, anything else that is not an object, or an object. */
  datatype Json =
    | Null
    | Leaf(text: string)
    | Object(members: map<string, Json>)

  type Body = map<string, Json>

  /** `target` with every member of `source` put in: an object is merged into an object, and
      everything else is overwritten. */
  function Merged(target: Body, source: Json): (result: Body)
    requires source.Object?
    decreases source
  {
    map m | m in target.Keys + source.members.Keys ::
      if m !in source.members then target[m]
      else if m in target && target[m].Object? && source.members[m].Object?
      then Object(Merged(target[m].members, source.members[m]))
      else source.members[m]
  }

  /** What merging means for a reader: a member given by the new object wins, unless both
      sides are objects, which merge in turn; every other member stays. */
  lemma MergedMember(target: Body, source: Json, m: string)
    requires source.Object?
    ensures m in Merged(target, source) <==> m in target || m in source.members
    ensures m in target && m !in source.members ==> Merged(target, source)[m] == target[m]
    ensures m in source.members && !source.members[m].Object? ==> Merged(target, source)[m] == source.members[m]
    ensures m in source.members && (m !in target || !target[m].Object?) ==> Merged(target, source)[m] == source.members[m]
  {
  }

  /** Writing the same object twice is writing it once. */
  lemma {:induction false} MergedTwice(target: Body, source: Json)
    requires source.Object?
    ensures Merged(Merged(target, source), source) == Merged(target, source)
    decreases source
  {
    var once := Merged(target, source);
    forall m | m in source.members && source.members[m].Object?
      ensures once[m].Object? && Merged(once[m].members, source.members[m]) == once[m].members
    {
      MergedTwice(if m in target && target[m].Object? then target[m].members else map[], source.members[m]);
      if m !in target || !target[m].Object? {
        MergedIntoNothing(source.members[m]);
      }
    }
  }

  /** Merging into nothing is the object itself. */
  lemma MergedIntoNothing(source: Json)
    requires source.Object?
    ensures Merged(map[], source) == source.members
  {
  }

  /** The result once the members outside `todo` have been merged. */
  ghost function Partly(target: Body, source: Json, todo: set<string>): (result: Body)
    requires source.Object?
  {
    map m | m in target.Keys + (source.members.Keys - todo) ::
      if m in source.members && m !in todo then Merged(target, source)[m] else target[m]
  }

  lemma MergeOne(target: Body, source: Json, todo: set<string>, m: string)
    requires source.Object? && todo <= source.members.Keys && m in todo
    ensures m in Partly(target, source, todo) <==> m in target
    ensures m in target ==> Partly(target, source, todo)[m] == target[m]
    ensures Partly(target, source, todo - {m}) == Partly(target, source, todo)[m := MemberOf(target, source, m)]
  {
    hide Merged;
    MemberIs(target, source, m);
  }

  function MemberOf(target: Body, source: Json, m: string): (value: Json)
    requires source.Object? && m in source.members
  {
    if m in target && target[m].Object? && source.members[m].Object?
    then Object(Merged(target[m].members, source.members[m]))
    else source.members[m]
  }

  lemma MemberIs(target: Body, source: Json, m: string)
    requires source.Object? && m in source.members
    ensures m in Merged(target, source) && Merged(target, source)[m] == MemberOf(target, source, m)
  {
  }

  lemma MergeEnds(target: Body, source: Json)
    requires source.Object?
    ensures Partly(target, source, source.members.Keys) == target
    ensures Partly(target, source, {}) == Merged(target, source)
  {
  }

  /** The loop that merges one object into another in place. */
  method Merge(target: Body, source: Json) returns (result: Body)
    requires source.Object?
    ensures result == Merged(target, source)
    decreases source
  {
    hide Merged, Partly;
    result := target;
    var todo := source.members.Keys;
    MergeEnds(target, source);
    while todo != {}
      invariant todo <= source.members.Keys && result == Partly(target, source, todo)
      decreases |todo|
    {
      var m :| m in todo;
      MergeOne(target, source, todo, m);
      var value := source.members[m];
      if m in result && result[m].Object? && value.Object? {
        var nested := Merge(result[m].members, value);
        result := result[m := Object(nested)];
      } else {
        result := result[m := value];
      }
      todo := todo - {m};
    }
  }

  // ---------------------------------------------------------------- indexing

  /** The stored object of a path, if an object is stored there. */
  type Lookup = string -> Option<Body>

  function Child(path: string, member: string): (child: string)
  {
    path + "." + member
  }

  function Base(path: string, merge: bool, stored: Lookup): (base: Body)
  {
    if merge && stored(path).Some? then stored(path).value else map[]
  }

  /** The records of a document at `path`, in the order they are written: the object
      itself, then what its members give, in byte order. */
  ghost function Records(path: string, doc: Json, merge: bool, stored: Lookup): (writes: seq<(string, Json)>)
    requires doc.Object?
    decreases doc, |doc.members.Keys| + 2
  {
    SortedHoldsAll(doc.members.Keys);
    [(path, Object(Merged(Base(path, merge, stored), doc)))]
    + MemberRecords(path, doc, Sorted(doc.members.Keys), merge, stored)
  }

  ghost function MemberRecords(path: string, doc: Json, names: seq<string>, merge: bool, stored: Lookup): (writes: seq<(string, Json)>)
    requires doc.Object? && forall n :: n in names ==> n in doc.members
    decreases doc, |names| + 1
  {
    if names == [] then []
    else
      Block(path, doc, names[0], merge, stored) + MemberRecords(path, doc, names[1..], merge, stored)
  }

  /** The records one member gives. */
  ghost function Block(path: string, doc: Json, m: string, merge: bool, stored: Lookup): (writes: seq<(string, Json)>)
    requires doc.Object? && m in doc.members
    decreases doc, 0
  {
    match doc.members[m]
    case Null => []
    case Leaf(_) => [(Child(path, m), doc.members[m])]
    case Object(_) => Records(Child(path, m), doc.members[m], merge, stored)
  }

  lemma SortedHoldsAll(names: set<string>)
    ensures forall n :: n in Sorted(names) <==> n in names
  {
    forall n ensures n in Sorted(names) <==> n in names {
      SortedHolds(names, n);
    }
  }

  /** Below `path`: the path itself, a dot, and something more. */
  predicate Inside(name: string, path: string)
  {
    path + "." <= name
  }

  lemma ChildInside(path: string, member: string, name: string)
    requires name == Child(path, member) || Inside(name, Child(path, member))
    ensures Inside(name, path)
  {
    assert name[..|path| + 1] == path + ".";
  }

  /** The object itself is written once, first; every other record lies below it. */
  lemma {:induction false} RecordsInside(path: string, doc: Json, merge: bool, stored: Lookup, k: nat)
    requires doc.Object? && k < |Records(path, doc, merge, stored)|
    ensures Records(path, doc, merge, stored)[0] == (path, Object(Merged(Base(path, merge, stored), doc)))
    ensures k > 0 ==> Inside(Records(path, doc, merge, stored)[k].0, path)
    decreases doc
  {
    if k > 0 {
      SortedHoldsAll(doc.members.Keys);
      MemberRecordsInside(path, doc, Sorted(doc.members.Keys), merge, stored, k - 1);
    }
  }

  lemma {:induction false} MemberRecordsInside(path: string, doc: Json, names: seq<string>, merge: bool, stored: Lookup, k: nat)
    requires doc.Object? && (forall n :: n in names ==> n in doc.members)
    requires k < |MemberRecords(path, doc, names, merge, stored)|
    ensures Inside(MemberRecords(path, doc, names, merge, stored)[k].0, path)
    decreases doc, |names|
  {
    hide Merged, Sorted;
    var value, child := doc.members[names[0]], Child(path, names[0]);
    var first := Block(path, doc, names[0], merge, stored);
    assert MemberRecords(path, doc, names, merge, stored) == first + MemberRecords(path, doc, names[1..], merge, stored);
    if k < |first| {
      if value.Object? {
        RecordsInside(child, value, merge, stored, k);
      }
      ChildInside(path, names[0], first[k].0);
    } else {
      MemberRecordsInside(path, doc, names[1..], merge, stored, k - |first|);
    }
  }

  /** The recursive indexing, as it pushes records one by one. */
  method Index(path: string, doc: Json, merge: bool, stored: Lookup) returns (writes: seq<(string, Json)>)
    requires doc.Object?
    ensures writes == Records(path, doc, merge, stored)
    decreases doc
  {
    hide Merged, MemberRecords, Sorted;
    var body := Merge(Base(path, merge, stored), doc);
    writes := [(path, Object(body))];
    var todo := doc.members.Keys;
    SortedHoldsAll(todo);
    ghost var all := Records(path, doc, merge, stored);
    assert all == writes + MemberRecords(path, doc, Sorted(todo), merge, stored);
    hide Records;
    while todo != {}
      invariant todo <= doc.members.Keys && forall n :: n in Sorted(todo) ==> n in doc.members
      invariant all == writes + MemberRecords(path, doc, Sorted(todo), merge, stored)
      decreases |todo|
    {
      var member := Least(todo);
      SortedFrom(todo, member);
      SortedHoldsAll(todo - {member});
      ghost var rest := Sorted(todo - {member});
      NextMember(path, doc, member, rest, merge, stored);
      var more: seq<(string, Json)> := [];
      match doc.members[member] {
        case Null =>
        case Leaf(_) => more := [(Child(path, member), doc.members[member])];
        case Object(_) => more := Index(Child(path, member), doc.members[member], merge, stored);
      }
      Regroup(writes, more, MemberRecords(path, doc, rest, merge, stored));
      writes := writes + more;
      todo := todo - {member};
    }
    NoMembers(path, doc, merge, stored);
  }

  lemma Regroup<T>(a: seq<T>, b: seq<T>, c: seq<T>)
    ensures a + (b + c) == (a + b) + c
  {
  }

  lemma NoMembers(path: string, doc: Json, merge: bool, stored: Lookup)
    requires doc.Object?
    ensures Sorted({}) == [] && MemberRecords(path, doc, Sorted({}), merge, stored) == []
  {
  }

  lemma NextMember(path: string, doc: Json, member: string, rest: seq<string>, merge: bool, stored: Lookup)
    requires doc.Object? && member in doc.members && forall n :: n in rest ==> n in doc.members
    ensures MemberRecords(path, doc, [member] + rest, merge, stored)
         == Block(path, doc, member, merge, stored) + MemberRecords(path, doc, rest, merge, stored)
  {
    var names := [member] + rest;
    assert names[0] == member && names[1..] == rest;
  }

  // ---------------------------------------------------------------- nested objects

  /** The part of a document that a path of members leads to. */
  function Part(doc: Json, steps: seq<string>): (part: Option<Json>)
    decreases |steps|
  {
    if steps == [] then Some(doc)
    else if doc.Object? && steps[0] in doc.members then Part(doc.members[steps[0]], steps[1..])
    else None
  }

  function PathOf(path: string, steps: seq<string>): (at: string)
    ensures path <= at
    decreases |steps|
  {
    if steps == [] then path
    else
      assert path <= Child(path, steps[0]);
      PathOf(Child(path, steps[0]), steps[1..])
  }

  /** Every nested object gets a record of its own, merged with what is stored at its path. */
  lemma {:induction false} PartWritten(path: string, doc: Json, merge: bool, stored: Lookup, steps: seq<string>) returns (k: nat)
    requires doc.Object? && Part(doc, steps).Some? && Part(doc, steps).value.Object?
    ensures k < |Records(path, doc, merge, stored)|
    ensures Records(path, doc, merge, stored)[k] ==
            (PathOf(path, steps), Object(Merged(Base(PathOf(path, steps), merge, stored), Part(doc, steps).value)))
    decreases |steps|
  {
    hide Merged, Sorted;
    if steps == [] {
      k := 0;
    } else {
      var m := steps[0];
      var inner := PartWritten(Child(path, m), doc.members[m], merge, stored, steps[1..]);
      SortedHoldsAll(doc.members.Keys);
      var at := MemberWritten(path, doc, Sorted(doc.members.Keys), merge, stored, m, inner);
      k := at + 1;
    }
  }

  lemma {:induction false} MemberWritten(path: string, doc: Json, names: seq<string>, merge: bool, stored: Lookup, m: string, inner: nat) returns (k: nat)
    requires doc.Object? && (forall n :: n in names ==> n in doc.members) && m in names
    requires inner < |Block(path, doc, m, merge, stored)|
    ensures k < |MemberRecords(path, doc, names, merge, stored)|
    ensures MemberRecords(path, doc, names, merge, stored)[k] == Block(path, doc, m, merge, stored)[inner]
    decreases |names|
  {
    hide Merged, Sorted, Records;
    NextMember(path, doc, names[0], names[1..], merge, stored);
    assert names == [names[0]] + names[1..];
    var first := Block(path, doc, names[0], merge, stored);
    if names[0] == m {
      k := inner;
    } else {
      var rest := MemberWritten(path, doc, names[1..], merge, stored, m, inner);
      k := |first| + rest;
    }
  }

  /** Every leaf gets a record too, with its own value. */
  lemma {:induction false} LeafWritten(path: string, doc: Json, merge: bool, stored: Lookup, steps: seq<string>) returns (k: nat)
    requires doc.Object? && Part(doc, steps).Some? && Part(doc, steps).value.Leaf?
    ensures k < |Records(path, doc, merge, stored)|
    ensures Records(path, doc, merge, stored)[k] == (PathOf(path, steps), Part(doc, steps).value)
    decreases |steps|
  {
    hide Merged, Sorted;
    var m, inner := steps[0], 0;
    if doc.members[m].Object? {
      inner := LeafWritten(Child(path, m), doc.members[m], merge, stored, steps[1..]);
    }
    SortedHoldsAll(doc.members.Keys);
    var at := MemberWritten(path, doc, Sorted(doc.members.Keys), merge, stored, m, inner);
    k := at + 1;
  }

  /** And nothing else is written: every record is for some part of the document that is not
      null, at that part's path, and a leaf's is the leaf itself. */
  lemma {:induction false} RecordIsPart(path: string, doc: Json, merge: bool, stored: Lookup, k: nat) returns (steps: seq<string>)
    requires doc.Object? && k < |Records(path, doc, merge, stored)|
    ensures Part(doc, steps).Some? && !Part(doc, steps).value.Null?
    ensures Records(path, doc, merge, stored)[k].0 == PathOf(path, steps)
    ensures Part(doc, steps).value.Leaf? ==> Records(path, doc, merge, stored)[k].1 == Part(doc, steps).value
    decreases doc
  {
    hide Merged, Sorted;
    if k == 0 {
      steps := [];
    } else {
      SortedHoldsAll(doc.members.Keys);
      var m, inner := MemberOfRecord(path, doc, Sorted(doc.members.Keys), merge, stored, k - 1);
      if doc.members[m].Object? {
        var rest := RecordIsPart(Child(path, m), doc.members[m], merge, stored, inner);
        steps := [m] + rest;
        assert steps[1..] == rest;
      } else {
        steps := [m];
        assert steps[1..] == [];
      }
    }
  }

  lemma {:induction false} MemberOfRecord(path: string, doc: Json, names: seq<string>, merge: bool, stored: Lookup, k: nat)
    returns (m: string, inner: nat)
    requires doc.Object? && (forall n :: n in names ==> n in doc.members)
    requires k < |MemberRecords(path, doc, names, merge, stored)|
    ensures m in doc.members && inner < |Block(path, doc, m, merge, stored)|
    ensures MemberRecords(path, doc, names, merge, stored)[k] == Block(path, doc, m, merge, stored)[inner]
    decreases |names|
  {
    hide Merged, Sorted, Records, Block;
    NextMember(path, doc, names[0], names[1..], merge, stored);
    assert names == [names[0]] + names[1..];
    var first := Block(path, doc, names[0], merge, stored);
    if k < |first| {
      m, inner := names[0], k;
    } else {
      m, inner := MemberOfRecord(path, doc, names[1..], merge, stored, k - |first|);
    }
  }

  /** No member name of the document has a dot in it. */
  predicate Dotless(doc: Json)
  {
    doc.Object? ==> forall m :: m in doc.members ==> '.' !in m && Dotless(doc.members[m])
  }

  ghost predicate DistinctNames(writes: seq<(string, Json)>)
  {
    forall i, j :: 0 <= i < j < |writes| ==> writes[i].0 != writes[j].0
  }

  ghost predicate WrittenOnce(writes: seq<(string, Json)>, name: string)
  {
    forall i, j :: 0 <= i < j < |writes| ==> writes[i].0 != name || writes[j].0 != name
  }

  predicate Within(name: string, path: string)
  {
    name == path || Inside(name, path)
  }

  lemma {:induction false} BlockWithin(path: string, doc: Json, m: string, merge: bool, stored: Lookup, k: nat)
    requires doc.Object? && m in doc.members && k < |Block(path, doc, m, merge, stored)|
    ensures Within(Block(path, doc, m, merge, stored)[k].0, Child(path, m))
  {
    hide Merged, Sorted, MemberRecords;
    if doc.members[m].Object? {
      RecordsInside(Child(path, m), doc.members[m], merge, stored, k);
    }
  }

  lemma {:induction false} MemberRecordWithin(path: string, doc: Json, names: seq<string>, merge: bool, stored: Lookup, k: nat) returns (m: string)
    requires doc.Object? && (forall n :: n in names ==> n in doc.members)
    requires k < |MemberRecords(path, doc, names, merge, stored)|
    ensures m in names && Within(MemberRecords(path, doc, names, merge, stored)[k].0, Child(path, m))
    decreases |names|
  {
    hide Merged, Sorted, Records, Within;
    NextMember(path, doc, names[0], names[1..], merge, stored);
    assert names == [names[0]] + names[1..];
    var first := Block(path, doc, names[0], merge, stored);
    if k < |first| {
      m := names[0];
      BlockWithin(path, doc, m, merge, stored, k);
    } else {
      m := MemberRecordWithin(path, doc, names[1..], merge, stored, k - |first|);
    }
  }

  /** Members without dots keep their records apart. */
  lemma WithinApart(path: string, m: string, n: string, name: string)
    requires '.' !in m && '.' !in n && Within(name, Child(path, m)) && Within(name, Child(path, n))
    ensures m == n
  {
    MemberFirst(path, m, name);
    MemberFirst(path, n, name);
  }

  lemma MemberFirst(path: string, m: string, name: string)
    requires '.' !in m && Within(name, Child(path, m))
    ensures |path| + 1 <= |name| && m == name[|path| + 1..][..IndexOf(name[|path| + 1..], '.')]
  {
    hide IndexOf;
    var rest := name[|path| + 1..];
    assert rest == m || (|m| < |rest| && rest[..|m|] == m && rest[|m|] == '.') by {
      if name != Child(path, m) {
        assert name[..|path| + 1 + |m| + 1] == path + "." + m + ".";
        assert rest[..|m| + 1] == m + ".";
        assert rest[|m|] == (m + ".")[|m|];
      }
    }
    var at := IndexOf(rest, '.');
    assert forall i :: 0 <= i < |m| ==> rest[i] == m[i];
    assert at == |m|;
  }

  /** Without dots in member names, no record is written twice. */
  lemma {:induction false} RecordsDistinct(path: string, doc: Json, merge: bool, stored: Lookup)
    requires doc.Object? && Dotless(doc)
    ensures DistinctNames(Records(path, doc, merge, stored))
    ensures forall name :: WrittenOnce(Records(path, doc, merge, stored), name)
    decreases doc, |doc.members.Keys| + 1
  {
    hide Merged, Sorted, MemberRecords;
    var names := Sorted(doc.members.Keys);
    SortedHoldsAll(doc.members.Keys);
    SortedAscends(doc.members.Keys);
    assert |names| == |doc.members.Keys|;
    MemberRecordsDistinct(path, doc, names, merge, stored);
    var all := Records(path, doc, merge, stored);
    forall i, j | 0 <= i < j < |all| ensures all[i].0 != all[j].0 {
      RecordsInside(path, doc, merge, stored, j);
      assert i > 0 ==> all[i] == all[1..][i - 1] && all[j] == all[1..][j - 1];
    }
  }

  lemma {:induction false} MemberRecordsDistinct(path: string, doc: Json, names: seq<string>, merge: bool, stored: Lookup)
    requires doc.Object? && Dotless(doc) && Ascending(names) && forall n :: n in names ==> n in doc.members
    ensures DistinctNames(MemberRecords(path, doc, names, merge, stored))
    decreases doc, |names|
  {
    hide Merged, Sorted, Records, AtMost, Within, Inside;
    if names != [] {
      var m, rest := names[0], names[1..];
      NextMember(path, doc, m, rest, merge, stored);
      assert names == [m] + rest;
      var first, others := Block(path, doc, m, merge, stored), MemberRecords(path, doc, rest, merge, stored);
      assert Ascending(rest);
      MemberRecordsDistinct(path, doc, rest, merge, stored);
      if doc.members[m].Object? {
        RecordsDistinct(Child(path, m), doc.members[m], merge, stored);
      }
      forall i, j | 0 <= i < |first| && 0 <= j < |others| ensures first[i].0 != others[j].0 {
        BlockWithin(path, doc, m, merge, stored, i);
        var n := MemberRecordWithin(path, doc, rest, merge, stored, j);
        assert n != m;
        if first[i].0 == others[j].0 {
          WithinApart(path, m, n, first[i].0);
        }
      }
      JoinedDistinct(first, others);
    }
  }

  lemma JoinedDistinct(first: seq<(string, Json)>, others: seq<(string, Json)>)
    requires DistinctNames(first) && DistinctNames(others)
    requires forall i, j :: 0 <= i < |first| && 0 <= j < |others| ==> first[i].0 != others[j].0
    ensures DistinctNames(first + others)
  {
  }

  /** Every old member is overwritten: the new object has it, and covers it in turn where
      both are objects. */
  predicate Covers(doc: Json, base: Body)
    requires doc.Object?
    decreases doc
  {
    forall m :: m in base ==>
      && m in doc.members
      && (base[m].Object? && doc.members[m].Object? ==> Covers(doc.members[m], base[m].members))
  }

  /** Merging leaves no trace of the old object exactly when the new one covers it. */
  lemma {:induction false} MergedIsNewIff(base: Body, doc: Json)
    requires doc.Object?
    ensures Merged(base, doc) == doc.members <==> Covers(doc, base)
    decreases doc
  {
    var merged := Merged(base, doc);
    forall m | m in base && m in doc.members && base[m].Object? && doc.members[m].Object?
      ensures merged[m] == doc.members[m] <==> Covers(doc.members[m], base[m].members)
    {
      MergedIsNewIff(base[m].members, doc.members[m]);
    }
    if Covers(doc, base) {
      assert forall m :: m in merged ==> m in doc.members && merged[m] == doc.members[m];
    } else {
      var m :| m in base && !(m in doc.members
                             && (base[m].Object? && doc.members[m].Object? ==> Covers(doc.members[m], base[m].members)));
      assert m in merged;
    }
  }

  lemma {:induction false} PathInside(path: string, steps: seq<string>)
    ensures steps != [] ==> Inside(PathOf(path, steps), path)
    decreases |steps|
  {
    if steps != [] {
      PathInside(Child(path, steps[0]), steps[1..]);
      assert steps[1..] == [] ==> PathOf(path, steps) == Child(path, steps[0]);
      ChildInside(path, steps[0], PathOf(path, steps));
    }
  }

  lemma CoversNothing(doc: Json)
    requires doc.Object?
    ensures Covers(doc, map[])
  {
  }

  // ---------------------------------------------------------------- a collision

  const INNER: Json := Object(map["c" := Leaf("1")])

  /** A member `a.b` beside a member `a` that has a member `b`. */
  const COLLIDING: Json := Object(map["a" := Object(map["b" := INNER]), "a.b" := Leaf("2")])

  /** The text of the dotted member is written last, under the path of the nested object. */
  lemma Collides(path: string, merge: bool, stored: Lookup)
    ensures Part(COLLIDING, ["a", "b"]) == Some(INNER)
    ensures var writes := Records(path, COLLIDING, merge, stored);
            writes != [] && writes[|writes| - 1] == (PathOf(path, ["a", "b"]), Leaf("2"))
  {
    hide Merged, Sorted, AtMost, Records, MemberRecords, Part, PathOf;
    var keys, all := {"a", "a.b"}, ["a", "a.b"];
    assert COLLIDING.members.Keys == keys;
    SortedPair();
    SortedHoldsAll(keys);
    var last := LastOfPair(path, all, merge, stored);
    RecordsEnd(path, COLLIDING, all, merge, stored);
    CollidingPath(path);
  }

  /** The last record of a document is the last one its members give. */
  lemma RecordsEnd(path: string, doc: Json, names: seq<string>, merge: bool, stored: Lookup)
    requires doc.Object? && names == Sorted(doc.members.Keys) && forall n :: n in names ==> n in doc.members
    ensures var all, given := Records(path, doc, merge, stored), MemberRecords(path, doc, names, merge, stored);
            given != [] ==> all != [] && all[|all| - 1] == given[|given| - 1]
  {
    hide Merged, Sorted, MemberRecords;
  }

  lemma CollidingPath(path: string)
    ensures Part(COLLIDING, ["a", "b"]) == Some(INNER) && PathOf(path, ["a", "b"]) == Child(path, "a.b")
  {
    assert ["a", "b"][1..] == ["b"] && ["b"][1..] == [];
    assert Child(Child(path, "a"), "b") == Child(path, "a.b");
  }

  lemma LastOfPair(path: string, all: seq<string>, merge: bool, stored: Lookup) returns (last: nat)
    requires all == ["a", "a.b"] && forall n :: n in all ==> n in COLLIDING.members
    ensures var writes := MemberRecords(path, COLLIDING, all, merge, stored);
            last == |writes| - 1 && writes[last] == (Child(path, "a.b"), Leaf("2"))
  {
    hide Merged, Sorted, AtMost, Records;
    assert all == ["a"] + ["a.b"] && ["a.b"] == ["a.b"] + [];
    NextMember(path, COLLIDING, "a", ["a.b"], merge, stored);
    NextMember(path, COLLIDING, "a.b", [], merge, stored);
    last := |MemberRecords(path, COLLIDING, all, merge, stored)| - 1;
  }

  lemma SortedPair()
    ensures Sorted({"a", "a.b"}) == ["a", "a.b"]
  {
    hide Sorted;
    assert "a.b"[1..] == ".b" && "a"[1..] == "" && ".b"[1..] == "b" && "b"[1..] == "";
    assert AtMost("a", "a.b") && AtMost("a", "a") && AtMost("a.b", "a.b");
    SortedFrom({"a", "a.b"}, "a");
    assert {"a", "a.b"} - {"a"} == {"a.b"};
    SortedFrom({"a.b"}, "a.b");
    assert {"a.b"} - {"a.b"} == {};
    assert |Sorted({})| == 0;
  }
}

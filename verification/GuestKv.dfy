/** Guest key/value pairs: one flat table of `owner::namespace::name` rows that behaves as a
    separate map for every creature and namespace. */
module GuestKv {
  import opened Wrappers
  import opened Collections
  import opened ByteOrder
  import Documents

  /** What an unbounded query is cut to. */
  const DEFAULT_TAKE: nat := 10_000

  datatype Namespace = DbOp | AppletDb | Json

  function Text(ns: Namespace): (text: string)
    ensures ':' !in text
  {
    match ns case DbOp => "dbop" case AppletDb => "applet_db" case Json => "json"
  }

  datatype Pair = Pair(owner: string, ns: Namespace, name: string, value: string)

  function Key(owner: string, ns: Namespace, name: string): (key: string)
  {
    owner + "::" + Text(ns) + "::" + name
  }

  /** An owner is an identifier without colons, so a key has one reading. */
  lemma CutAtColons(a: string, x: string, b: string, y: string)
    requires ':' !in a && ':' !in b && a + "::" + x == b + "::" + y
    ensures a == b && x == y
  {
    assert a + "::" + x == a + [':'] + (":" + x) && b + "::" + y == b + [':'] + (":" + y);
    SplitAtSeparator(':', a, ":" + x, b, ":" + y);
    assert x == (":" + x)[1..] && y == (":" + y)[1..];
  }

  lemma KeysSeparate(o1: string, ns1: Namespace, n1: string, o2: string, ns2: Namespace, n2: string)
    requires ':' !in o1 && ':' !in o2
    ensures Key(o1, ns1, n1) == Key(o2, ns2, n2) <==> o1 == o2 && ns1 == ns2 && n1 == n2
  {
    if Key(o1, ns1, n1) == Key(o2, ns2, n2) {
      assert Key(o1, ns1, n1) == o1 + "::" + (Text(ns1) + "::" + n1);
      assert Key(o2, ns2, n2) == o2 + "::" + (Text(ns2) + "::" + n2);
      CutAtColons(o1, Text(ns1) + "::" + n1, o2, Text(ns2) + "::" + n2);
      CutAtColons(Text(ns1), n1, Text(ns2), n2);
      TextsDiffer(ns1, ns2);
    }
  }

  lemma TextsDiffer(a: Namespace, b: Namespace)
    ensures Text(a) == Text(b) ==> a == b
  {
    assert Text(DbOp)[0] == 'd' && Text(AppletDb)[0] == 'a' && Text(Json)[0] == 'j';
  }

  // ---------------------------------------------------------------- the per-creature view

  ghost predicate Valid(rows: map<string, Pair>)
  {
    forall k :: k in rows ==> ':' !in rows[k].owner && k == Key(rows[k].owner, rows[k].ns, rows[k].name)
  }

  /** The names one creature has in one namespace. */
  function Names(rows: map<string, Pair>, owner: string, ns: Namespace): (names: set<string>)
  {
    set k | k in rows && rows[k].owner == owner && rows[k].ns == ns :: rows[k].name
  }

  lemma NameIffKey(rows: map<string, Pair>, owner: string, ns: Namespace, name: string)
    requires Valid(rows) && ':' !in owner
    ensures name in Names(rows, owner, ns) <==> Key(owner, ns, name) in rows
    ensures Key(owner, ns, name) in rows ==> rows[Key(owner, ns, name)] == Pair(owner, ns, name, rows[Key(owner, ns, name)].value)
  {
    var key := Key(owner, ns, name);
    if key in rows {
      KeysSeparate(owner, ns, name, rows[key].owner, rows[key].ns, rows[key].name);
    }
  }

  /** One creature's map in one namespace. */
  ghost function Pairs(rows: map<string, Pair>, owner: string, ns: Namespace): (pairs: map<string, string>)
    requires Valid(rows) && ':' !in owner
  {
    map name | name in Names(rows, owner, ns) ::
      NameIffKey(rows, owner, ns, name);
      rows[Key(owner, ns, name)].value
  }

  lemma PairsAt(rows: map<string, Pair>, owner: string, ns: Namespace, name: string)
    requires Valid(rows) && ':' !in owner
    ensures name in Pairs(rows, owner, ns) <==> Key(owner, ns, name) in rows
    ensures name in Pairs(rows, owner, ns) ==> Pairs(rows, owner, ns)[name] == rows[Key(owner, ns, name)].value
  {
    NameIffKey(rows, owner, ns, name);
  }

  /** Nothing outside one creature's namespace changed. */
  ghost predicate OthersKept(before: map<string, Pair>, after: map<string, Pair>, owner: string, ns: Namespace)
    requires Valid(before) && Valid(after)
  {
    forall o, n :: ':' !in o && (o != owner || n != ns) ==> Pairs(after, o, n) == Pairs(before, o, n)
  }

  /** `after` differs from `before` in one row at most. */
  ghost predicate OneRow(before: map<string, Pair>, after: map<string, Pair>, key: string)
  {
    forall k :: k != key ==> (k in before <==> k in after) && (k in before ==> before[k] == after[k])
  }

  lemma NameKept(before: map<string, Pair>, after: map<string, Pair>, owner: string, ns: Namespace, name: string, o: string, n: Namespace, x: string)
    requires Valid(before) && Valid(after) && ':' !in owner && ':' !in o
    requires OneRow(before, after, Key(owner, ns, name))
    requires !(o == owner && n == ns && x == name)
    ensures x in Pairs(before, o, n) <==> x in Pairs(after, o, n)
    ensures x in Pairs(before, o, n) ==> Pairs(before, o, n)[x] == Pairs(after, o, n)[x]
  {
    KeysSeparate(o, n, x, owner, ns, name);
    hide Key, Pairs;
    PairsAt(before, o, n, x);
    PairsAt(after, o, n, x);
  }

  lemma RowKept(before: map<string, Pair>, after: map<string, Pair>, owner: string, ns: Namespace, name: string)
    requires Valid(before) && Valid(after) && ':' !in owner
    requires OneRow(before, after, Key(owner, ns, name))
    ensures OthersKept(before, after, owner, ns)
  {
    hide Key, Pairs, OneRow, Valid;
    forall o, n | ':' !in o && (o != owner || n != ns) ensures Pairs(after, o, n) == Pairs(before, o, n) {
      forall x ensures x in Pairs(before, o, n) <==> x in Pairs(after, o, n)
        ensures x in Pairs(before, o, n) ==> Pairs(before, o, n)[x] == Pairs(after, o, n)[x]
      {
        NameKept(before, after, owner, ns, name, o, n, x);
      }
    }
  }

  /** Writing a row is a map update of one creature's namespace, and of nothing else. */
  lemma PutRefines(rows: map<string, Pair>, owner: string, ns: Namespace, name: string, value: string)
    requires Valid(rows) && ':' !in owner
    ensures var after := rows[Key(owner, ns, name) := Pair(owner, ns, name, value)];
            && Valid(after)
            && Pairs(after, owner, ns) == Pairs(rows, owner, ns)[name := value]
            && OthersKept(rows, after, owner, ns)
  {
    hide Key, Pairs, OthersKept;
    var after := rows[Key(owner, ns, name) := Pair(owner, ns, name, value)];
    assert OneRow(rows, after, Key(owner, ns, name));
    RowKept(rows, after, owner, ns, name);
    PairsAt(after, owner, ns, name);
    forall x | x != name
      ensures x in Pairs(rows, owner, ns) <==> x in Pairs(after, owner, ns)
      ensures x in Pairs(rows, owner, ns) ==> Pairs(rows, owner, ns)[x] == Pairs(after, owner, ns)[x]
    {
      NameKept(rows, after, owner, ns, name, owner, ns, x);
    }
  }

  lemma DeleteRefines(rows: map<string, Pair>, owner: string, ns: Namespace, name: string)
    requires Valid(rows) && ':' !in owner
    ensures var after := rows - {Key(owner, ns, name)};
            && Valid(after)
            && Pairs(after, owner, ns) == Pairs(rows, owner, ns) - {name}
            && OthersKept(rows, after, owner, ns)
  {
    hide Key, Pairs, OthersKept;
    var after := rows - {Key(owner, ns, name)};
    assert OneRow(rows, after, Key(owner, ns, name));
    RowKept(rows, after, owner, ns, name);
    PairsAt(after, owner, ns, name);
    forall x | x != name
      ensures x in Pairs(rows, owner, ns) <==> x in Pairs(after, owner, ns)
      ensures x in Pairs(rows, owner, ns) ==> Pairs(rows, owner, ns)[x] == Pairs(after, owner, ns)[x]
    {
      NameKept(rows, after, owner, ns, name, owner, ns, x);
    }
  }

  // ---------------------------------------------------------------- documents

  /** The names of `pairs` that start with `prefix`. */
  ghost function Under(pairs: map<string, string>, prefix: string): (names: set<string>)
  {
    set n | n in pairs && prefix <= n
  }

  /** What deleting a document path is about: the record itself, unless the path is empty,
      and every record below it. */
  function ExactRecord(key: string, path: string): (record: set<string>)
  {
    if path == "" then {} else {key + "::" + path}
  }

  function BelowPrefix(key: string, path: string): (prefix: string)
  {
    if path == "" then key + "::" else key + "::" + path + "."
  }

  /** A creature's documents after `writes` to one of them. */
  function Written(pairs: map<string, string>, key: string, writes: seq<(string, string)>): (after: map<string, string>)
  {
    if writes == [] then pairs
    else
      var last := writes[|writes| - 1];
      Written(pairs, key, writes[..|writes| - 1])[key + "::" + last.0 := last.1]
  }

  /** Writing a document touches nothing outside it. */
  lemma {:induction false} WritesStayInside(pairs: map<string, string>, key: string, writes: seq<(string, string)>, name: string)
    requires !(BelowPrefix(key, "") <= name)
    ensures name in Written(pairs, key, writes) <==> name in pairs
    ensures name in pairs ==> Written(pairs, key, writes)[name] == pairs[name]
    decreases |writes|
  {
    if writes != [] {
      WritesStayInside(pairs, key, writes[..|writes| - 1], name);
      var record := key + "::" + writes[|writes| - 1].0;
      assert record[..|key| + 2] == BelowPrefix(key, "");
    }
  }

  /** Turning document values into text and back. */
  datatype Codec = Codec(parse: string -> Option<Documents.Json>, render: Documents.Json -> string)

  ghost predicate Faithful(codec: Codec)
  {
    forall v :: codec.parse(codec.render(v)) == Some(v)
  }

  /** The stored objects of one document, as far as `snapshot` has them. */
  function StoredIn(snapshot: map<string, string>, key: string, codec: Codec): (stored: Documents.Lookup)
  {
    (record: string) =>
      var name := key + "::" + record;
      if name !in snapshot then None
      else match codec.parse(snapshot[name])
        case Some(Object(members)) => Some(members)
        case _ => None
  }

  function Rendered(writes: seq<(string, Documents.Json)>, codec: Codec): (texts: seq<(string, string)>)
    ensures |texts| == |writes|
  {
    seq(|writes|, i requires 0 <= i < |writes| => (writes[i].0, codec.render(writes[i].1)))
  }

  /** What is at `path`, read back as an object; nothing is an empty one. */
  function ObjectAt(pairs: map<string, string>, key: string, path: string, codec: Codec): (body: Documents.Body)
  {
    var stored := StoredIn(pairs, key, codec)(path);
    if stored.Some? then stored.value else map[]
  }

  lemma {:induction false} PrefixAtMost(prefix: string, name: string)
    requires prefix <= name
    ensures AtMost(prefix, name)
    decreases |prefix|
  {
    if prefix != "" {
      assert prefix[1..] <= name[1..];
      PrefixAtMost(prefix[1..], name[1..]);
    }
  }

  /** The record at the prefix itself is always among those listed. */
  lemma RootListed(pairs: map<string, string>, root: string, listed: seq<string>)
    requires Lists(listed, Under(pairs, root), DEFAULT_TAKE) && root in pairs
    ensures root in listed
  {
    hide AtMost;
    if root !in listed {
      ListsAllIff(listed, Under(pairs, root), DEFAULT_TAKE);
      assert root in Under(pairs, root) && root !in Members(listed);
      var first := listed[0];
      assert first in listed && first in Members(listed);
      PrefixAtMost(root, first);
      OrderTotal(first, root);
    }
  }

  /** The last write under a name is what is stored there. */
  lemma {:induction false} LastWriteStands(pairs: map<string, string>, key: string, writes: seq<(string, string)>, i: nat)
    requires i < |writes| && forall j :: i < j < |writes| ==> writes[j].0 != writes[i].0
    ensures key + "::" + writes[i].0 in Written(pairs, key, writes)
    ensures Written(pairs, key, writes)[key + "::" + writes[i].0] == writes[i].1
    decreases |writes|
  {
    var n := |writes| - 1;
    if i < n {
      LastWriteStands(pairs, key, writes[..n], i);
      var mine, last := key + "::" + writes[i].0, key + "::" + writes[n].0;
      assert writes[i].0 == mine[|key| + 2..] && writes[n].0 == last[|key| + 2..];
    }
  }

  /** What is not written stays. */
  lemma {:induction false} UnwrittenStays(pairs: map<string, string>, key: string, writes: seq<(string, string)>, record: string)
    requires forall j :: 0 <= j < |writes| ==> writes[j].0 != record
    ensures var name := key + "::" + record;
            && (name in Written(pairs, key, writes) <==> name in pairs)
            && (name in pairs ==> Written(pairs, key, writes)[name] == pairs[name])
    decreases |writes|
  {
    if writes != [] {
      var n := |writes| - 1;
      UnwrittenStays(pairs, key, writes[..n], record);
      var name, last := key + "::" + record, key + "::" + writes[n].0;
      assert record == name[|key| + 2..] && writes[n].0 == last[|key| + 2..];
    }
  }

  /** The snapshot has the root of the document, whatever else it misses. */
  lemma SnapshotRoot(pairs: map<string, string>, key: string, path: string, listed: seq<string>, codec: Codec)
    requires Lists(listed, Under(pairs, key + "::" + path), DEFAULT_TAKE)
    ensures StoredIn(Snapshot(pairs, listed), key, codec)(path) == StoredIn(pairs, key, codec)(path)
  {
    var root := key + "::" + path;
    if root in pairs {
      RootListed(pairs, root, listed);
    }
  }

  lemma RootText(pairs: map<string, string>, key: string, path: string, doc: Documents.Json, merge: bool,
                 stored: Documents.Lookup, codec: Codec)
    requires doc.Object?
    ensures var texts := Rendered(Documents.Records(path, doc, merge, stored), codec);
            var body := Documents.Merged(Documents.Base(path, merge, stored), doc);
            && key + "::" + path in Written(pairs, key, texts)
            && Written(pairs, key, texts)[key + "::" + path] == codec.render(Documents.Object(body))
  {
    hide Documents.Merged, Written;
    var writes := Documents.Records(path, doc, merge, stored);
    Documents.RecordsInside(path, doc, merge, stored, 0);
    var texts := Rendered(writes, codec);
    forall i | 0 < i < |texts| ensures texts[i].0 != texts[0].0 {
      Documents.RecordsInside(path, doc, merge, stored, i);
    }
    LastWriteStands(pairs, key, texts, 0);
  }

  /** Put, then get: the object read back at `path` is the new one, merged into the one
      that was there if asked to, however large the document is. */
  lemma PutThenGet(pairs: map<string, string>, key: string, path: string, doc: Documents.Json, merge: bool,
                   listed: seq<string>, codec: Codec)
    requires doc.Object? && Faithful(codec)
    requires Lists(listed, Under(pairs, key + "::" + path), DEFAULT_TAKE)
    ensures var writes := Documents.Records(path, doc, merge, StoredIn(Snapshot(pairs, listed), key, codec));
            var before := if merge then ObjectAt(pairs, key, path, codec) else map[];
            ObjectAt(Written(pairs, key, Rendered(writes, codec)), key, path, codec) == Documents.Merged(before, doc)
  {
    hide Lists, Documents.Merged, Documents.Records, Under, Written, Rendered;
    SnapshotRoot(pairs, key, path, listed, codec);
    RootText(pairs, key, path, doc, merge, StoredIn(Snapshot(pairs, listed), key, codec), codec);
  }

  // ---------------------------------------------------------------- nested paths

  /** What a listing of the document's path shows of the table. */
  function Snapshot(pairs: map<string, string>, listed: seq<string>): (snapshot: map<string, string>)
  {
    map n | n in pairs && n in listed :: pairs[n]
  }

  /** The object some record stores, once everything is written, if nothing after it was
      written under its name. */
  lemma RecordReadBack(pairs: map<string, string>, key: string, writes: seq<(string, Documents.Json)>, k: nat, codec: Codec)
    requires Faithful(codec) && k < |writes| && forall j :: k < j < |writes| ==> writes[j].0 != writes[k].0
    ensures ObjectAt(Written(pairs, key, Rendered(writes, codec)), key, writes[k].0, codec)
         == if writes[k].1.Object? then writes[k].1.members else map[]
  {
    hide Written;
    LastWriteStands(pairs, key, Rendered(writes, codec), k);
  }

  /** A nested object is stored as a record of its own, and read back from there if nothing
      else of the document is written under its path, as is so without dots in member names
      (`RecordsDistinct`). Written without merging it is the new one. Merged, it is merged with what was stored at its
      own path, exactly when the listing reached that far, fewer than ten thousand records
      of the document coming before it, or when it covers what was stored anyway. */
  lemma NestedReadBackIff(pairs: map<string, string>, key: string, path: string, doc: Documents.Json, merge: bool,
                          listed: seq<string>, codec: Codec, steps: seq<string>)
    requires doc.Object? && Faithful(codec) && Lists(listed, Under(pairs, key + "::" + path), DEFAULT_TAKE)
    requires Documents.Part(doc, steps).Some? && Documents.Part(doc, steps).value.Object?
    requires Documents.WrittenOnce(Documents.Records(path, doc, merge, StoredIn(Snapshot(pairs, listed), key, codec)),
                                   Documents.PathOf(path, steps))
    ensures var writes := Documents.Records(path, doc, merge, StoredIn(Snapshot(pairs, listed), key, codec));
            var at, part := Documents.PathOf(path, steps), Documents.Part(doc, steps).value;
            var now, was := ObjectAt(Written(pairs, key, Rendered(writes, codec)), key, at, codec), ObjectAt(pairs, key, at, codec);
            && (!merge ==> now == part.members)
            && (merge ==>
                  (now == Documents.Merged(was, part) <==>
                   |Earlier(Under(pairs, key + "::" + path), key + "::" + at)| < DEFAULT_TAKE || Documents.Covers(part, was)))
  {
    hide Lists, Under, Written, Rendered, Documents.Records, Documents.Merged, Documents.Part, Documents.PathOf, Documents.Covers, Earlier;
    var stored := StoredIn(Snapshot(pairs, listed), key, codec);
    var writes := Documents.Records(path, doc, merge, stored);
    var at, part := Documents.PathOf(path, steps), Documents.Part(doc, steps).value;
    var k := Documents.PartWritten(path, doc, merge, stored, steps);
    RecordReadBack(pairs, key, writes, k, codec);
    var was, name := ObjectAt(pairs, key, at, codec), key + "::" + at;
    Documents.MergedIntoNothing(part);
    Documents.MergedIsNewIff(was, part);
    if name in pairs {
      InDocument(pairs, key, path, at);
      ListedIff(listed, Under(pairs, key + "::" + path), DEFAULT_TAKE, name);
    } else {
      Documents.CoversNothing(part);
    }
  }

  lemma InDocument(pairs: map<string, string>, key: string, path: string, at: string)
    requires path <= at && key + "::" + at in pairs
    ensures key + "::" + at in Under(pairs, key + "::" + path)
  {
    var root, name := key + "::" + path, key + "::" + at;
    assert name[..|root|] == root;
  }

  /** A path the document does not write keeps what was there, below the document too. */
  lemma StaleStays(pairs: map<string, string>, key: string, writes: seq<(string, Documents.Json)>, at: string, codec: Codec)
    requires forall j :: 0 <= j < |writes| ==> writes[j].0 != at
    ensures ObjectAt(Written(pairs, key, Rendered(writes, codec)), key, at, codec) == ObjectAt(pairs, key, at, codec)
  {
    hide Written;
    UnwrittenStays(pairs, key, Rendered(writes, codec), at);
  }

  /** A dotted name collides with a nested one: the object at `a.b` is overwritten by the
      text of the member `a.b`, and reads back empty. */
  lemma DottedNamesCollide(pairs: map<string, string>, key: string, path: string, merge: bool, stored: Documents.Lookup, codec: Codec)
    requires Faithful(codec)
    ensures var doc := Documents.COLLIDING;
            && doc.Object? && Documents.Part(doc, ["a", "b"]) == Some(Documents.INNER) && Documents.INNER.members != map[]
            && ObjectAt(Written(pairs, key, Rendered(Documents.Records(path, doc, merge, stored), codec)),
                        key, Documents.PathOf(path, ["a", "b"]), codec) == map[]
  {
    hide Written, Rendered, ObjectAt;
    Documents.Collides(path, merge, stored);
    var writes := Documents.Records(path, Documents.COLLIDING, merge, stored);
    RecordReadBack(pairs, key, writes, |writes| - 1, codec);
  }

  /** Deleting what a listing found leaves nothing at or below the path exactly when there
      were no more than ten thousand records below it. */
  lemma DeletesAllIff(pairs: map<string, string>, key: string, path: string, listed: seq<string>)
    requires Lists(listed, Under(pairs, BelowPrefix(key, path)), DEFAULT_TAKE)
    ensures var doomed := Under(pairs, BelowPrefix(key, path)) + ExactRecord(key, path);
            pairs - Members(listed) - ExactRecord(key, path) == pairs - doomed <==>
            |Under(pairs, BelowPrefix(key, path))| <= DEFAULT_TAKE
  {
    var below, exact := Under(pairs, BelowPrefix(key, path)), ExactRecord(key, path);
    ListsAllIff(listed, below, DEFAULT_TAKE);
    assert Members(listed) == below ==> pairs - Members(listed) - exact == pairs - (below + exact);
    if x :| x in below && x !in listed {
      NotBelowItself(key, path, x);
      assert x in pairs - Members(listed) - exact && x !in pairs - (below + exact);
    } else {
      assert Members(listed) == below;
    }
  }

  /** After a deletion that was not cut, nothing reads back at the path or anywhere below it. */
  lemma DeletedReadsEmpty(pairs: map<string, string>, key: string, path: string, listed: seq<string>, codec: Codec, steps: seq<string>)
    requires Lists(listed, Under(pairs, BelowPrefix(key, path)), DEFAULT_TAKE)
    requires |Under(pairs, BelowPrefix(key, path))| <= DEFAULT_TAKE
    ensures ObjectAt(pairs - Members(listed) - ExactRecord(key, path), key, Documents.PathOf(path, steps), codec) == map[]
  {
    hide Lists, AtMost, Documents.PathOf;
    var name := key + "::" + Documents.PathOf(path, steps);
    ListsAllIff(listed, Under(pairs, BelowPrefix(key, path)), DEFAULT_TAKE);
    Documents.PathInside(path, steps);
    if path == "" {
      assert name[..|key| + 2] == BelowPrefix(key, path);
    } else if steps == [] {
      assert Documents.PathOf(path, []) == path by { RootPath(path); }
    } else {
      BelowIsInside(key, path, Documents.PathOf(path, steps));
    }
    assert name in pairs ==> name in Members(listed) || name in ExactRecord(key, path);
  }

  lemma RootPath(path: string)
    ensures Documents.PathOf(path, []) == path
  {
  }

  /** The prefix of a path takes in exactly what lies below it. */
  lemma BelowIsInside(key: string, path: string, record: string)
    requires path != ""
    ensures BelowPrefix(key, path) <= key + "::" + record <==> Documents.Inside(record, path)
  {
    var below, name := BelowPrefix(key, path), key + "::" + record;
    assert below == key + "::" + (path + ".");
    if below <= name {
      assert record == name[|key| + 2..] && (path + ".") == below[|key| + 2..];
      assert record[..|path| + 1] == path + ".";
    }
    if Documents.Inside(record, path) {
      assert name[..|below|] == key + "::" + record[..|path| + 1];
    }
  }

  /** And whatever is neither at the path nor below it is left alone, cut or not. */
  lemma DeletesNothingElse(pairs: map<string, string>, key: string, path: string, listed: seq<string>, record: string)
    requires Lists(listed, Under(pairs, BelowPrefix(key, path)), DEFAULT_TAKE)
    requires path != "" && record != path && !Documents.Inside(record, path)
    ensures var after, name := pairs - Members(listed) - ExactRecord(key, path), key + "::" + record;
            (name in after <==> name in pairs) && (name in pairs ==> after[name] == pairs[name])
  {
    hide AtMost, Ascending;
    BelowIsInside(key, path, record);
    var name, exact := key + "::" + record, key + "::" + path;
    assert record == name[|key| + 2..] && path == exact[|key| + 2..];
  }

  lemma NotBelowItself(key: string, path: string, x: string)
    requires BelowPrefix(key, path) <= x
    ensures x !in ExactRecord(key, path)
  {
  }

  /** Some record of the document `k2` is inside the document `k1`. */
  ghost predicate Overlap(k1: string, k2: string)
  {
    exists path :: BelowPrefix(k1, "") <= k2 + "::" + path
  }

  /** Exactly when documents of two keys overlap: one key with its separator is a prefix of
      the other. */
  lemma DocumentsOverlapIff(k1: string, k2: string)
    ensures Overlap(k1, k2) <==> k1 + "::" <= k2 + "::" || k2 + "::" <= k1 + "::"
  {
    var a, b := k1 + "::", k2 + "::";
    if Overlap(k1, k2) {
      var path :| a <= b + path;
      if |a| <= |b| {
        assert b[..|a|] == (b + path)[..|a|] == a;
      } else {
        assert a[..|b|] == (b + path)[..|b|] == b;
      }
    }
    if a <= b {
      assert b + "" == b && a <= b + "";
    } else if b <= a {
      assert b + a[|b|..] == a;
      assert a <= b + a[|b|..];
    }
  }

  /** A key below another key's separator names documents inside that key's documents. */
  lemma NestedKeysOverlap(key: string, inner: string)
    ensures Overlap(key, key + "::" + inner)
  {
    assert key + "::" <= key + "::" + inner + "::";
    DocumentsOverlapIff(key, key + "::" + inner);
  }

  /** So documents of different keys are apart as long as keys hold no colon. */
  lemma DocumentsSeparate(k1: string, k2: string)
    requires ':' !in k1 && ':' !in k2
    ensures Overlap(k1, k2) <==> k1 == k2
  {
    DocumentsOverlapIff(k1, k2);
    var a, b := k1 + "::", k2 + "::";
    if a <= b {
      assert b == a + b[|a|..];
      assert b == k2 + "::" + "" && a + b[|a|..] == k1 + "::" + b[|a|..];
      CutAtColons(k1, b[|a|..], k2, "");
    } else if b <= a {
      assert a == b + a[|b|..];
      assert a == k1 + "::" + "" && b + a[|b|..] == k2 + "::" + a[|b|..];
      CutAtColons(k2, a[|b|..], k1, "");
    }
  }

  /** The most a guest may ask for at once. */
  const MAX_GUEST_LIST: nat := 1_000

  /** How many rows a query with this limit answers at most. */
  function Take(limit: Option<nat>, cuts: bool): (take: nat)
    ensures limit.Some? && limit.value <= MAX_GUEST_LIST ==> take == limit.value
    ensures limit.None? ==> take == DEFAULT_TAKE
    ensures limit.Some? && !cuts ==> take == limit.value
    ensures cuts ==> take <= DEFAULT_TAKE && (take == DEFAULT_TAKE || limit == Some(take))
  {
    if limit.None? || (cuts && DEFAULT_TAKE < limit.value) then DEFAULT_TAKE else limit.value
  }

  class Table {
    var rows: map<string, Pair>

    method Get(owner: string, ns: Namespace, name: string) returns (value: Option<string>)
      requires Valid(rows) && ':' !in owner
      ensures value.Some? <==> name in Pairs(rows, owner, ns)
      ensures value.Some? ==> value.value == Pairs(rows, owner, ns)[name]
    {
      PairsAt(rows, owner, ns, name);
      var key := Key(owner, ns, name);
      value := if key in rows then Some(rows[key].value) else None;
    }

    method Put(owner: string, ns: Namespace, name: string, value: string)
      requires Valid(rows) && ':' !in owner
      modifies this
      ensures Valid(rows)
      ensures Pairs(rows, owner, ns) == old(Pairs(rows, owner, ns))[name := value]
      ensures OthersKept(old(rows), rows, owner, ns)
    {
      hide Key, Pairs, OthersKept, Valid;
      PutRefines(rows, owner, ns, name, value);
      rows := rows[Key(owner, ns, name) := Pair(owner, ns, name, value)];
    }

    method Delete(owner: string, ns: Namespace, name: string) returns (existed: bool)
      requires Valid(rows) && ':' !in owner
      modifies this
      ensures Valid(rows)
      ensures existed == (name in old(Pairs(rows, owner, ns)))
      ensures Pairs(rows, owner, ns) == old(Pairs(rows, owner, ns)) - {name}
      ensures OthersKept(old(rows), rows, owner, ns)
    {
      hide Key, Pairs, OthersKept, Valid;
      PairsAt(rows, owner, ns, name);
      DeleteRefines(rows, owner, ns, name);
      var key := Key(owner, ns, name);
      existed := key in rows;
      rows := rows - {key};
    }

    /** The first names under `prefix` in byte order, with their values, as many as asked for.
        `cuts` says whether the provider holds explicit limits to its own bound as well. */
    method List(owner: string, ns: Namespace, prefix: string, limit: Option<nat>, cuts: bool)
      returns (names: seq<string>, values: seq<string>)
      requires Valid(rows) && ':' !in owner
      ensures Lists(names, Under(Pairs(rows, owner, ns), prefix), Take(limit, cuts))
      ensures |values| == |names|
      ensures forall i :: 0 <= i < |names| ==>
                names[i] in Pairs(rows, owner, ns) && values[i] == Pairs(rows, owner, ns)[names[i]]
    {
      var matching := set n | n in Names(rows, owner, ns) && prefix <= n;
      assert matching == Under(Pairs(rows, owner, ns), prefix);
      hide Pairs, Under, Key, Valid, Names;
      names := First(matching, Take(limit, cuts));
      assert Members(names) <= Under(Pairs(rows, owner, ns), prefix);
      hide Lists, Members;
      values := [];
      for i := 0 to |names|
        invariant |values| == i
        invariant forall j :: 0 <= j < i ==>
                    names[j] in Pairs(rows, owner, ns) && values[j] == Pairs(rows, owner, ns)[names[j]]
      {
        ListedIsPair(rows, owner, ns, prefix, names, i);
        PairsAt(rows, owner, ns, names[i]);
        values := values + [rows[Key(owner, ns, names[i])].value];
      }
    }

    /** Write a document: parse it, look up what is stored below its path as far as a
        listing reaches, and write the records it is indexed into, one by one. Text that
        is not an object changes nothing. */
    method PutJson(owner: string, key: string, path: string, data: string, merge: bool, codec: Codec)
      returns (written: bool, ghost listed: seq<string>, ghost snapshot: map<string, string>)
      requires Valid(rows) && ':' !in owner
      modifies this
      ensures Valid(rows) && OthersKept(old(rows), rows, owner, Json)
      ensures written <==> codec.parse(data).Some? && codec.parse(data).value.Object?
      ensures !written ==> rows == old(rows)
      ensures var before := old(Pairs(rows, owner, Json));
              written ==>
                && Lists(listed, Under(before, key + "::" + path), DEFAULT_TAKE)
                && snapshot == Snapshot(before, listed)
                && Pairs(rows, owner, Json) ==
                   Written(before, key, Rendered(Documents.Records(path, codec.parse(data).value, merge,
                                                                   StoredIn(snapshot, key, codec)), codec))
    {
      hide Pairs, Key, Valid, OthersKept, Under, Lists, Documents.Records, Written;
      ghost var before := rows;
      KeptAtFirst(before, owner, Json);
      var parsed := codec.parse(data);
      listed, snapshot := [], map[];
      if parsed.None? || !parsed.value.Object? {
        return false, listed, snapshot;
      }
      var names, values := List(owner, Json, key + "::" + path, None, true);
      var found := Collect(names, values);
      listed, snapshot := names, found;
      SnapshotIs(Pairs(rows, owner, Json), names, values, found);
      var writes := Documents.Index(path, parsed.value, merge, StoredIn(found, key, codec));
      PutAll(owner, key, Rendered(writes, codec));
      written := true;
    }

    method PutAll(owner: string, key: string, writes: seq<(string, string)>)
      requires Valid(rows) && ':' !in owner
      modifies this
      ensures Valid(rows) && OthersKept(old(rows), rows, owner, Json)
      ensures Pairs(rows, owner, Json) == Written(old(Pairs(rows, owner, Json)), key, writes)
    {
      hide Pairs, Key, Valid, OthersKept;
      ghost var before := rows;
      KeptAtFirst(before, owner, Json);
      for i := 0 to |writes|
        invariant Valid(rows) && OthersKept(before, rows, owner, Json)
        invariant Pairs(rows, owner, Json) == Written(Pairs(before, owner, Json), key, writes[..i])
      {
        ghost var middle := rows;
        Put(owner, Json, key + "::" + writes[i].0, writes[i].1);
        KeptOnward(before, middle, rows, owner, Json);
        assert writes[..i + 1][..i] == writes[..i];
      }
      assert writes[..|writes|] == writes;
    }

    /** The object at a path; nothing, or anything else, is an empty one. */
    method GetJson(owner: string, key: string, path: string, codec: Codec) returns (body: Documents.Body)
      requires Valid(rows) && ':' !in owner
      ensures body == ObjectAt(Pairs(rows, owner, Json), key, path, codec)
    {
      hide Pairs, Key, Valid;
      var text := Get(owner, Json, key + "::" + path);
      if text.Some? {
        var parsed := codec.parse(text.value);
        if parsed.Some? && parsed.value.Object? {
          return parsed.value.members;
        }
      }
      body := map[];
    }

    /** Delete a document path: the record and everything below it, as far as the listing
        reaches. No other creature and no other namespace is touched. */
    method DeleteJson(owner: string, key: string, path: string) returns (ghost listed: seq<string>)
      requires Valid(rows) && ':' !in owner
      modifies this
      ensures Valid(rows) && OthersKept(old(rows), rows, owner, Json)
      ensures Lists(listed, Under(old(Pairs(rows, owner, Json)), BelowPrefix(key, path)), DEFAULT_TAKE)
      ensures Pairs(rows, owner, Json) == old(Pairs(rows, owner, Json)) - Members(listed) - ExactRecord(key, path)
    {
      hide Pairs, Key, Valid, OthersKept, Lists, Under;
      var records, values := List(owner, Json, BelowPrefix(key, path), None, true);
      listed := records;
      if path != "" {
        records := records + [key + "::" + path];
      }
      ghost var before := rows;
      KeptAtFirst(before, owner, Json);
      for i := 0 to |records|
        invariant Valid(rows) && OthersKept(before, rows, owner, Json)
        invariant Pairs(rows, owner, Json) == Pairs(before, owner, Json) - Members(records[..i])
      {
        ghost var middle := rows;
        var existed := Delete(owner, Json, records[i]);
        KeptOnward(before, middle, rows, owner, Json);
        assert Members(records[..i + 1]) == Members(records[..i]) + {records[i]};
      }
      assert records[..|records|] == records;
      assert Members(records) == Members(listed) + ExactRecord(key, path);
    }
  }

  lemma ListedIsPair(rows: map<string, Pair>, owner: string, ns: Namespace, prefix: string, listed: seq<string>, i: nat)
    requires Valid(rows) && ':' !in owner && i < |listed|
    requires Members(listed) <= Under(Pairs(rows, owner, ns), prefix)
    ensures listed[i] in Pairs(rows, owner, ns)
  {
    assert listed[i] in Members(listed);
  }

  lemma KeptAtFirst(rows: map<string, Pair>, owner: string, ns: Namespace)
    requires Valid(rows)
    ensures OthersKept(rows, rows, owner, ns)
  {
  }

  lemma KeptOnward(a: map<string, Pair>, b: map<string, Pair>, c: map<string, Pair>, owner: string, ns: Namespace)
    requires Valid(a) && Valid(b) && Valid(c) && OthersKept(a, b, owner, ns) && OthersKept(b, c, owner, ns)
    ensures OthersKept(a, c, owner, ns)
  {
    hide Pairs, Valid;
  }

  method Collect(names: seq<string>, values: seq<string>) returns (found: map<string, string>)
    requires |names| == |values|
    ensures found.Keys == Members(names)
    ensures forall n :: n in found ==> exists i :: 0 <= i < |names| && names[i] == n && values[i] == found[n]
  {
    found := map[];
    for i := 0 to |names|
      invariant found.Keys == Members(names[..i])
      invariant forall n :: n in found ==> exists j :: 0 <= j < i && names[j] == n && values[j] == found[n]
    {
      assert Members(names[..i + 1]) == Members(names[..i]) + {names[i]};
      found := found[names[i] := values[i]];
    }
    assert names[..|names|] == names;
  }

  lemma SnapshotIs(pairs: map<string, string>, names: seq<string>, values: seq<string>, found: map<string, string>)
    requires |values| == |names| && forall i :: 0 <= i < |names| ==> names[i] in pairs && values[i] == pairs[names[i]]
    requires found.Keys == Members(names)
    requires forall n :: n in found ==> exists i :: 0 <= i < |names| && names[i] == n && values[i] == found[n]
    ensures found == map n | n in pairs && n in names :: pairs[n]
  {
    assert forall n :: n in names <==> n in found;
  }
}

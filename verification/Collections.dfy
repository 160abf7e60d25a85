/** Facts about texts and finite sets that several components rely on. */
module Collections {
  import opened Wrappers

  /** The error of the first check that is not passed, if there is one. */
  ghost predicate FirstFailed<E>(checks: seq<(E, bool)>, error: Option<E>)
  {
    match error
    case None => forall i :: 0 <= i < |checks| ==> checks[i].1
    case Some(e) =>
      exists i :: 0 <= i < |checks| && !checks[i].1 && checks[i].0 == e && forall j :: 0 <= j < i ==> checks[j].1
  }

  /** Where `c` first occurs in `text`, or its length. */
  function IndexOf(text: string, c: char): (at: nat)
    ensures at <= |text| && forall i :: 0 <= i < at ==> text[i] != c
    ensures at < |text| ==> text[at] == c
  {
    if text == "" || text[0] == c then 0
    else IndexOf(text[1..], c) + 1
  }

  /** A separator that does not occur in the first part splits the whole in one way. */
  lemma SplitAtSeparator<T>(sep: T, a: seq<T>, x: seq<T>, b: seq<T>, y: seq<T>)
    requires sep !in a && sep !in b
    requires a + [sep] + x == b + [sep] + y
    ensures a == b && x == y
  {
    var whole, other := a + [sep] + x, b + [sep] + y;
    assert whole[|a|] == sep && other[|b|] == sep;
    assert b == other[..|b|] && a == whole[..|a|];
    assert x == whole[|a| + 1..] && y == other[|b| + 1..];
  }

  lemma {:induction false} SubsetSize<T>(part: set<T>, whole: set<T>)
    requires part <= whole
    ensures |part| <= |whole|
  {
    if x :| x in part {
      SubsetSize(part - {x}, whole - {x});
    }
  }

  lemma SubsetOfSameSize<T>(part: set<T>, whole: set<T>)
    requires part <= whole && |whole| <= |part|
    ensures part == whole
  {
    if x :| x in whole && x !in part {
      SubsetSize(part, whole - {x});
    }
  }
}

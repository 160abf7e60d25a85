/** Names in byte order, and the first few of them. */
module ByteOrder {
  import opened Collections

  /** Byte order on names. */
  predicate AtMost(a: string, b: string)
  {
    a == "" || (b != "" && (a[0] < b[0] || (a[0] == b[0] && AtMost(a[1..], b[1..]))))
  }

  lemma {:induction false} OrderTotal(a: string, b: string)
    ensures AtMost(a, b) || AtMost(b, a)
    ensures AtMost(a, b) && AtMost(b, a) ==> a == b
    decreases |a|
  {
    if a != "" && b != "" {
      OrderTotal(a[1..], b[1..]);
      assert a == [a[0]] + a[1..] && b == [b[0]] + b[1..];
    }
  }

  lemma {:induction false} OrderTransitive(a: string, b: string, c: string)
    requires AtMost(a, b) && AtMost(b, c)
    ensures AtMost(a, c)
    decreases |a|
  {
    if a != "" && a[0] == b[0] && b[0] == c[0] {
      OrderTransitive(a[1..], b[1..], c[1..]);
    }
  }

  // ---------------------------------------------------------------- the first few

  function Members(names: seq<string>): (members: set<string>)
  {
    set n | n in names
  }

  lemma NoneListed()
    ensures Members([]) == {}
  {
  }

  ghost predicate Ascending(names: seq<string>)
  {
    forall i, j :: 0 <= i < j < |names| ==> AtMost(names[i], names[j]) && names[i] != names[j]
  }

  /** The first `take` of `names` in byte order. */
  ghost predicate Lists(listed: seq<string>, names: set<string>, take: nat)
  {
    && Ascending(listed)
    && Members(listed) <= names
    && |listed| == (if |names| <= take then |names| else take)
    && (forall x, y :: x in listed && y in names && y !in listed ==> AtMost(x, y))
  }

  lemma LeastExists(names: set<string>) returns (least: string)
    requires names != {}
    ensures IsLeast(least, names)
  {
    least :| least in names;
    if names == {least} {
      OrderTotal(least, least);
    } else {
      var rest := LeastExists(names - {least});
      OrderTotal(least, rest);
      OrderTotal(least, least);
      forall n | n in names ensures AtMost(if AtMost(least, rest) then least else rest, n) {
        if AtMost(least, rest) && n != least {
          OrderTransitive(least, rest, n);
        }
      }
      least := if AtMost(least, rest) then least else rest;
    }
  }

  predicate IsLeast(least: string, names: set<string>)
  {
    least in names && forall n :: n in names ==> AtMost(least, n)
  }

  lemma LeastIsOne(a: string, b: string, names: set<string>)
    requires IsLeast(a, names) && IsLeast(b, names)
    ensures a == b
  {
    OrderTotal(a, b);
  }

  /** The names in byte order. */
  ghost function Sorted(names: set<string>): (sorted: seq<string>)
    ensures |sorted| == |names|
  {
    if names == {} then []
    else
      assert exists least :: IsLeast(least, names) by { var least := LeastExists(names); }
      var least :| IsLeast(least, names);
      [least] + Sorted(names - {least})
  }

  lemma SortedFrom(names: set<string>, least: string)
    requires IsLeast(least, names)
    ensures Sorted(names) == [least] + Sorted(names - {least})
  {
    var chosen :| IsLeast(chosen, names) && Sorted(names) == [chosen] + Sorted(names - {chosen});
    LeastIsOne(chosen, least, names);
  }

  lemma {:induction false} SortedHolds(names: set<string>, n: string)
    ensures n in Sorted(names) <==> n in names
    decreases names
  {
    if names != {} {
      var least := LeastExists(names);
      SortedFrom(names, least);
      SortedHolds(names - {least}, n);
    }
  }

  lemma {:induction false} SortedAscends(names: set<string>)
    ensures Ascending(Sorted(names))
    decreases names
  {
    hide AtMost;
    if names != {} {
      var least := LeastExists(names);
      var rest := names - {least};
      SortedFrom(names, least);
      SortedAscends(rest);
      forall n | n in Sorted(rest) ensures AtMost(least, n) && n != least {
        SortedHolds(rest, n);
      }
      StartsAscending(least, Sorted(rest));
    }
  }

  lemma StartsAscending(first: string, rest: seq<string>)
    requires Ascending(rest) && forall n :: n in rest ==> AtMost(first, n) && n != first
    ensures Ascending([first] + rest)
  {
    hide AtMost;
    var all := [first] + rest;
    forall i, j | 0 <= i < j < |all| ensures AtMost(all[i], all[j]) && all[i] != all[j] {
      assert all[j] == rest[j - 1] && all[j] in rest;
      assert i > 0 ==> all[i] == rest[i - 1];
    }
  }

  method Least(names: set<string>) returns (least: string)
    requires names != {}
    ensures IsLeast(least, names)
  {
    least :| least in names;
    var todo := names - {least};
    OrderTotal(least, least);
    while todo != {}
      invariant todo <= names && least in names
      invariant forall n :: n in names - todo ==> AtMost(least, n)
      decreases |todo|
    {
      var n :| n in todo;
      OrderTotal(n, least);
      OrderTotal(n, n);
      if AtMost(n, least) {
        forall m | m in names - todo ensures AtMost(n, m) {
          OrderTransitive(n, least, m);
        }
        least := n;
      }
      todo := todo - {n};
    }
  }

  /** `listed` are the least of `names`, in order, and `todo` are the rest. */
  ghost predicate Partway(listed: seq<string>, todo: set<string>, names: set<string>)
  {
    && Ascending(listed) && Members(listed) == names - todo && todo <= names
    && |listed| + |todo| == |names|
    && forall x, y :: x in listed && y in todo ==> AtMost(x, y)
  }

  lemma TakeLeast(listed: seq<string>, todo: set<string>, names: set<string>, least: string)
    requires Partway(listed, todo, names) && least in todo && forall n :: n in todo ==> AtMost(least, n)
    ensures Partway(listed + [least], todo - {least}, names)
  {
    hide AtMost, Ascending;
    var listed' := listed + [least];
    assert Members(listed') == Members(listed) + {least};
    assert Members(listed') == names - (todo - {least});
    StaysAscending(listed, least) by {
      forall x | x in listed ensures AtMost(x, least) && x != least {
        assert x in Members(listed);
      }
    }
    forall x, y | x in listed' && y in todo - {least} ensures AtMost(x, y) {
      assert x in listed || x == least;
    }
  }

  lemma StaysAscending(listed: seq<string>, last: string)
    requires Ascending(listed) && forall x :: x in listed ==> AtMost(x, last) && x != last
    ensures Ascending(listed + [last])
  {
    hide AtMost;
    var longer := listed + [last];
    forall i, j | 0 <= i < j < |longer| ensures AtMost(longer[i], longer[j]) && longer[i] != longer[j] {
      assert longer[i] == listed[i] && listed[i] in listed;
    }
  }

  method First(names: set<string>, take: nat) returns (listed: seq<string>)
    ensures Lists(listed, names, take)
  {
    listed := [];
    var todo := names;
    assert Partway(listed, todo, names);
    hide AtMost, Partway;
    while |listed| < take && todo != {}
      invariant |listed| <= take && Partway(listed, todo, names)
      decreases |todo|
    {
      var least := Least(todo);
      TakeLeast(listed, todo, names, least);
      listed := listed + [least];
      todo := todo - {least};
    }
    PartwayLists(listed, todo, names, take);
  }

  lemma PartwayLists(listed: seq<string>, todo: set<string>, names: set<string>, take: nat)
    requires Partway(listed, todo, names) && |listed| <= take && (|listed| == take || todo == {})
    ensures Lists(listed, names, take)
  {
    hide AtMost;
    forall y | y in names && y !in listed ensures y in todo {
      assert y !in Members(listed);
    }
  }

  /** A listing is everything exactly when there is no more than it may take. */
  lemma ListsAllIff(listed: seq<string>, names: set<string>, take: nat)
    requires Lists(listed, names, take)
    ensures Members(listed) == names <==> |names| <= take
  {
    AscendingSize(listed);
    if |names| <= take {
      SubsetOfSameSize(Members(listed), names);
    }
  }

  /** The `i`th name listed is a new one, and what is listed after it, or not at all, comes
      after it. */
  lemma NextInOrder(listed: seq<string>, names: set<string>, take: nat, i: nat)
    requires Lists(listed, names, take) && i < |listed|
    ensures listed[i] in names && listed[i] !in Members(listed[..i])
    ensures Members(listed[..i + 1]) == Members(listed[..i]) + {listed[i]}
    ensures forall y :: y in names - Members(listed[..i + 1]) ==> AtMost(listed[i], y)
  {
    hide AtMost;
    assert listed[i] in Members(listed);
    forall k | 0 <= k <= i ensures listed[k] in Members(listed[..i + 1]) {
      assert listed[..i + 1][k] == listed[k];
    }
  }

  /** Listing one more than is kept tells whether there is more. */
  lemma Truncated(listed: seq<string>, names: set<string>, keep: nat)
    requires Lists(listed, names, keep + 1)
    ensures var kept := if |listed| > keep then listed[..keep] else listed;
            && Lists(kept, names, keep)
            && (Members(kept) == names <==> |listed| <= keep)
  {
    hide AtMost;
    var kept := if |listed| > keep then listed[..keep] else listed;
    if |listed| > keep {
      assert Members(kept) <= Members(listed);
      forall x, y | x in kept && y in names && y !in kept ensures AtMost(x, y) {
        var i :| 0 <= i < |kept| && kept[i] == x;
        assert x in listed && listed[i] == x;
        if y in listed {
          var j :| 0 <= j < |listed| && listed[j] == y;
          assert j == keep;
        }
      }
      assert listed[keep] in Members(listed) && listed[keep] !in kept;
    } else {
      ListsAllIff(listed, names, keep + 1);
    }
  }

  /** The names that come before `x`. */
  ghost function Earlier(names: set<string>, x: string): (before: set<string>)
  {
    set y | y in names && y != x && AtMost(y, x)
  }

  /** A name is listed exactly when fewer come before it than the listing may take. */
  lemma ListedIff(listed: seq<string>, names: set<string>, take: nat, x: string)
    requires Lists(listed, names, take) && x in names
    ensures x in listed <==> |Earlier(names, x)| < take
  {
    hide AtMost;
    AscendingSize(listed);
    if x in listed {
      var i :| 0 <= i < |listed| && listed[i] == x;
      EarlierListed(listed, names, take, i);
    } else {
      ListsAllIff(listed, names, take);
      assert x !in Members(listed);
      assert Members(listed) <= Earlier(names, x);
      SubsetSize(Members(listed), Earlier(names, x));
    }
  }

  lemma EarlierListed(listed: seq<string>, names: set<string>, take: nat, i: nat)
    requires Lists(listed, names, take) && i < |listed|
    ensures |Earlier(names, listed[i])| <= i
  {
    hide AtMost;
    var front := listed[..i];
    assert Earlier(names, listed[i]) <= Members(front) by {
      forall y | y in Earlier(names, listed[i]) ensures y in front {
        OrderTotal(y, listed[i]);
        assert listed[i] in listed;
        var j :| 0 <= j < |listed| && listed[j] == y;
        assert j < i ==> front[j] == y;
      }
    }
    assert Ascending(front);
    AscendingSize(front);
    SubsetSize(Earlier(names, listed[i]), Members(front));
  }

  lemma {:induction false} AscendingSize(names: seq<string>)
    requires Ascending(names)
    ensures |Members(names)| == |names|
    decreases |names|
  {
    if names != [] {
      var front, last := names[..|names| - 1], names[|names| - 1];
      AscendingSize(front);
      assert Members(names) == Members(front) + {last};
      assert last !in front;
    }
  }
}

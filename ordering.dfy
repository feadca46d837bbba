/** Ordering of report records by age: the stable descending sort that
    `list.sort(key=days_since_created, reverse=True)` and `sorted(...)`
    perform, the top-N slice of it, and the first maximum `max(...)` picks. */
module Ordering {
  import opened Model

  predicate SortedByAgeDesc(s: seq<StoppedInstance>) {
    forall i, j :: 0 <= i < j < |s| ==> s[i].daysSinceCreated >= s[j].daysSinceCreated
  }

  lemma SortedCons(a: StoppedInstance, t: seq<StoppedInstance>)
    requires SortedByAgeDesc(t)
    requires t != [] ==> a.daysSinceCreated >= t[0].daysSinceCreated
    ensures SortedByAgeDesc([a] + t)
  {
    var r := [a] + t;
    forall i, j | 0 <= i < j < |r| ensures r[i].daysSinceCreated >= r[j].daysSinceCreated {
      if i == 0 {
        assert r[j] == t[j - 1];
        assert t[0].daysSinceCreated >= t[j - 1].daysSinceCreated;
      } else {
        assert r[i] == t[i - 1] && r[j] == t[j - 1];
      }
    }
  }

  lemma SortedTail(s: seq<StoppedInstance>)
    requires s != [] && SortedByAgeDesc(s)
    ensures SortedByAgeDesc(s[1..])
  {
    forall i, j | 0 <= i < j < |s| - 1 ensures s[1..][i].daysSinceCreated >= s[1..][j].daysSinceCreated {
      assert s[1..][i] == s[i + 1] && s[1..][j] == s[j + 1];
    }
  }

  lemma SortedSlice(s: seq<StoppedInstance>, lo: nat, hi: nat)
    requires lo <= hi <= |s| && SortedByAgeDesc(s)
    ensures SortedByAgeDesc(s[lo..hi])
  {
    forall i, j | 0 <= i < j < hi - lo ensures s[lo..hi][i].daysSinceCreated >= s[lo..hi][j].daysSinceCreated {
      assert s[lo..hi][i] == s[lo + i] && s[lo..hi][j] == s[lo + j];
    }
  }

  /** The records of `s` whose age is `a`, in their order in `s`. */
  function WithAge(s: seq<StoppedInstance>, a: nat): seq<StoppedInstance>
  {
    if s == [] then []
    else WithAge(s[..|s| - 1], a) + (if s[|s| - 1].daysSinceCreated == a then [s[|s| - 1]] else [])
  }

  lemma {:induction false} WithAgeConcat(s: seq<StoppedInstance>, t: seq<StoppedInstance>, a: nat)
    ensures WithAge(s + t, a) == WithAge(s, a) + WithAge(t, a)
    decreases |t|
  {
    if t == [] {
      assert s + t == s;
    } else {
      assert (s + t)[..|s + t| - 1] == s + t[..|t| - 1];
      WithAgeConcat(s, t[..|t| - 1], a);
    }
  }

  lemma {:induction false} WithAgeNone(s: seq<StoppedInstance>, a: nat)
    requires forall k :: 0 <= k < |s| ==> s[k].daysSinceCreated != a
    ensures WithAge(s, a) == []
  {
    if s != [] {
      WithAgeNone(s[..|s| - 1], a);
    }
  }

  /** Insert `x` after every record at least as old as it: the place a stable
      descending sort gives an element that comes after all of `s` in the input. */
  function InsertByAge(s: seq<StoppedInstance>, x: StoppedInstance): (r: seq<StoppedInstance>)
    ensures |r| == |s| + 1
  {
    if s == [] then [x]
    else if s[0].daysSinceCreated >= x.daysSinceCreated then [s[0]] + InsertByAge(s[1..], x)
    else [x] + s
  }

  /** Inserting into an oldest-first list keeps it oldest-first; the new head
      is `x` or the old head. */
  lemma {:induction false} InsertKeepsSorted(s: seq<StoppedInstance>, x: StoppedInstance)
    requires SortedByAgeDesc(s)
    ensures SortedByAgeDesc(InsertByAge(s, x))
    ensures InsertByAge(s, x)[0] == x || (s != [] && InsertByAge(s, x)[0] == s[0])
  {
    if s != [] {
      if s[0].daysSinceCreated >= x.daysSinceCreated {
        SortedTail(s);
        InsertKeepsSorted(s[1..], x);
        var t := InsertByAge(s[1..], x);
        assert t[0] == x || t[0] == s[1];
        SortedCons(s[0], t);
      } else {
        SortedCons(x, s);
      }
    }
  }

  /** Insertion adds `x` and loses nothing. */
  lemma {:induction false} InsertPermutes(s: seq<StoppedInstance>, x: StoppedInstance)
    ensures multiset(InsertByAge(s, x)) == multiset(s) + multiset{x}
  {
    if s != [] && s[0].daysSinceCreated >= x.daysSinceCreated {
      InsertPermutes(s[1..], x);
      assert s == [s[0]] + s[1..];
    }
  }

  /** `sorted(s, key=days_since_created, reverse=True)` */
  function SortByAgeDesc(s: seq<StoppedInstance>): (r: seq<StoppedInstance>)
    ensures SortedByAgeDesc(r)
    ensures multiset(r) == multiset(s)
    ensures |r| == |s|
  {
    if s == [] then []
    else
      var init, last := SortByAgeDesc(s[..|s| - 1]), s[|s| - 1];
      InsertKeepsSorted(init, last);
      InsertPermutes(init, last);
      assert multiset(s) == multiset(s[..|s| - 1]) + multiset{last} by {
        assert s == s[..|s| - 1] + [last];
      }
      InsertByAge(init, last)
  }

  lemma {:induction false} InsertIsStable(s: seq<StoppedInstance>, x: StoppedInstance, a: nat)
    requires SortedByAgeDesc(s)
    ensures WithAge(InsertByAge(s, x), a) == WithAge(s, a) + WithAge([x], a)
  {
    if s == [] {
      assert WithAge(s, a) == [];
    } else if s[0].daysSinceCreated >= x.daysSinceCreated {
      SortedTail(s);
      InsertIsStable(s[1..], x, a);
      ConsKeepsStable(s[0], InsertByAge(s[1..], x), s[1..], x, a);
      assert [s[0]] + s[1..] == s;
    } else {
      forall k | 0 <= k < |s| ensures s[k].daysSinceCreated < x.daysSinceCreated {
        assert s[0].daysSinceCreated >= s[k].daysSinceCreated;
      }
      OldestFirstIsStable(s, x, a);
    }
  }

  /** Putting the same record in front of two lists keeps a stability
      equation between them. */
  lemma ConsKeepsStable(h: StoppedInstance, t: seq<StoppedInstance>, rest: seq<StoppedInstance>,
                        x: StoppedInstance, a: nat)
    requires WithAge(t, a) == WithAge(rest, a) + WithAge([x], a)
    ensures WithAge([h] + t, a) == WithAge([h] + rest, a) + WithAge([x], a)
  {
    WithAgeConcat([h], t, a);
    WithAgeConcat([h], rest, a);
  }

  /** A record strictly older than all of `s` can go first without
      reordering records of equal age. */
  lemma OldestFirstIsStable(s: seq<StoppedInstance>, x: StoppedInstance, a: nat)
    requires forall k :: 0 <= k < |s| ==> s[k].daysSinceCreated < x.daysSinceCreated
    ensures WithAge([x] + s, a) == WithAge(s, a) + WithAge([x], a)
  {
    WithAgeConcat([x], s, a);
    if a == x.daysSinceCreated {
      WithAgeNone(s, a);
    } else {
      WithAgeNone([x], a);
    }
  }

  /** The sort is stable: records of equal age keep their input order. */
  lemma {:induction false} SortIsStable(s: seq<StoppedInstance>, a: nat)
    ensures WithAge(SortByAgeDesc(s), a) == WithAge(s, a)
  {
    if s != [] {
      var init, last := s[..|s| - 1], s[|s| - 1];
      SortIsStable(init, a);
      InsertIsStable(SortByAgeDesc(init), last, a);
      assert [last][..0] == [];
    }
  }

  lemma {:induction false} InsertAfterAll(s: seq<StoppedInstance>, x: StoppedInstance)
    requires forall k :: 0 <= k < |s| ==> s[k].daysSinceCreated >= x.daysSinceCreated
    ensures InsertByAge(s, x) == s + [x]
  {
    if s != [] {
      InsertAfterAll(s[1..], x);
      assert [s[0]] + (s[1..] + [x]) == s + [x];
    }
  }

  /** Sorting a list that is already oldest-first changes nothing. */
  lemma {:induction false} SortOfSortedIsIdentity(s: seq<StoppedInstance>)
    requires SortedByAgeDesc(s)
    ensures SortByAgeDesc(s) == s
  {
    if s != [] {
      var init, last := s[..|s| - 1], s[|s| - 1];
      SortOfSortedIsIdentity(init);
      InsertAfterAll(init, last);
      assert init + [last] == s;
    }
  }

  /** A younger record followed by an older one comes out swapped. */
  lemma SortSwapsYoungerPair(b: StoppedInstance, c: StoppedInstance)
    requires b.daysSinceCreated < c.daysSinceCreated
    ensures SortByAgeDesc([b, c]) == [c, b]
  {
    assert [b, c][..1] == [b] && [b][..0] == [];
    assert SortByAgeDesc([b]) == [b];
    assert InsertByAge([b], c) == [c, b];
  }

  function Min(a: int, b: int): int { if a < b then a else b }

  /** `sorted(s, key=days_since_created, reverse=True)[:n]` */
  function TopOldest(s: seq<StoppedInstance>, n: nat): (r: seq<StoppedInstance>)
    ensures |r| == Min(n, |s|)
    ensures SortedByAgeDesc(r)
    ensures forall i :: 0 <= i < |r| ==> r[i] == SortByAgeDesc(s)[i]
    ensures multiset(r) <= multiset(s)
  {
    var sorted := SortByAgeDesc(s);
    var m := Min(n, |s|);
    SortedSlice(sorted, 0, m);
    assert sorted == sorted[..m] + sorted[m..];
    sorted[..m]
  }

  lemma PrefixDominatesSuffix(sorted: seq<StoppedInstance>, m: nat)
    requires m <= |sorted| && SortedByAgeDesc(sorted)
    ensures forall x, y :: x in sorted[..m] && y in sorted[m..] ==> x.daysSinceCreated >= y.daysSinceCreated
  {
    forall x: StoppedInstance, y: StoppedInstance | x in sorted[..m] && y in sorted[m..]
      ensures x.daysSinceCreated >= y.daysSinceCreated
    {
      var i :| 0 <= i < m && sorted[..m][i] == x;
      var j :| 0 <= j < |sorted| - m && sorted[m..][j] == y;
      assert sorted[i] == x && sorted[m + j] == y;
    }
  }

  /** Every record in the top-N is at least as old as every record left out of it. */
  lemma TopOldestDominates(s: seq<StoppedInstance>, n: nat)
    ensures forall x, y :: x in TopOldest(s, n) && y in multiset(s) - multiset(TopOldest(s, n)) ==>
      x.daysSinceCreated >= y.daysSinceCreated
  {
    var sorted := SortByAgeDesc(s);
    var m := Min(n, |s|);
    var top, rest := sorted[..m], sorted[m..];
    assert TopOldest(s, n) == top;
    assert sorted == top + rest;
    assert multiset(s) - multiset(top) == multiset(rest);
    PrefixDominatesSuffix(sorted, m);
  }

  /** On a list that is already oldest-first the top-N is simply its first N records. */
  lemma TopOldestOfSorted(s: seq<StoppedInstance>, n: nat)
    requires SortedByAgeDesc(s)
    ensures TopOldest(s, n) == s[..Min(n, |s|)]
  {
    SortOfSortedIsIdentity(s);
  }

  /** `max(s, key=days_since_created)`: the first record of greatest age. */
  function FirstOldest(s: seq<StoppedInstance>): (r: StoppedInstance)
    requires |s| > 0
    ensures r in s
    ensures forall x :: x in s ==> x.daysSinceCreated <= r.daysSinceCreated
    ensures exists i :: 0 <= i < |s| && s[i] == r && forall j :: 0 <= j < i ==> s[j].daysSinceCreated < r.daysSinceCreated
  {
    if |s| == 1 then s[0]
    else
      var init := s[..|s| - 1];
      var m := FirstOldest(init);
      assert s == init + [s[|s| - 1]];
      var i :| 0 <= i < |init| && init[i] == m && forall j :: 0 <= j < i ==> init[j].daysSinceCreated < m.daysSinceCreated;
      assert s[i] == m;
      if s[|s| - 1].daysSinceCreated > m.daysSinceCreated then s[|s| - 1] else m
  }

  /** On an oldest-first list the oldest record is its head. */
  lemma FirstOldestOfSorted(s: seq<StoppedInstance>)
    requires |s| > 0 && SortedByAgeDesc(s)
    ensures FirstOldest(s) == s[0]
  {
  }
}

/**
 * The .NET collection operations the two services rebuild their lists with:
 * ImmutableList's Remove and RemoveAll and LINQ's MaxBy and OrderBy, written
 * as functions on sequences, with the facts about them the services rely on.
 */
module Collections {

  datatype Option<+T> = None | Some(value: T)

  /** Keys never decrease from left to right. */
  predicate SortedBy<T>(s: seq<T>, key: T -> int) {
    forall i, j :: 0 <= i < j < |s| ==> key(s[i]) <= key(s[j])
  }

  /** Keys strictly increase from left to right, so no key occurs twice. */
  predicate StrictlyIncreasingBy<T>(s: seq<T>, key: T -> int) {
    forall i, j :: 0 <= i < j < |s| ==> key(s[i]) < key(s[j])
  }

  /**
   * LINQ's MaxBy: the first element whose key is the largest, or None (the
   * C# null) for an empty sequence.
   */
  function MaxBy<T>(s: seq<T>, key: T -> int): (r: Option<T>)
    ensures r.None? <==> s == []
    ensures r.Some? ==> r.value in s && forall x :: x in s ==> key(x) <= key(r.value)
    ensures r.Some? ==> exists i :: 0 <= i < |s| && s[i] == r.value &&
                                    forall j :: 0 <= j < i ==> key(s[j]) < key(s[i])
  {
    if s == [] then None
    else
      var init, last := s[..|s| - 1], s[|s| - 1];
      assert s == init + [last];
      match MaxBy(init, key)
      case None => Some(last)
      case Some(m) => if key(last) > key(m) then Some(last) else Some(m)
  }

  /** Puts x after every element of the sorted s whose key is at most key(x). */
  function InsertBy<T>(s: seq<T>, x: T, key: T -> int): (r: seq<T>)
    ensures multiset(r) == multiset(s) + multiset{x}
  {
    if s == [] || key(s[|s| - 1]) <= key(x) then s + [x]
    else
      assert s == s[..|s| - 1] + [s[|s| - 1]];
      InsertBy(s[..|s| - 1], x, key) + [s[|s| - 1]]
  }

  /** Inserting into a sorted list keeps it sorted. */
  lemma {:induction false} InsertBySorted<T>(s: seq<T>, x: T, key: T -> int)
    requires SortedBy(s, key)
    ensures SortedBy(InsertBy(s, x, key), key)
  {
    if s != [] && key(s[|s| - 1]) > key(x) {
      var init, last := s[..|s| - 1], s[|s| - 1];
      assert SortedBy(init, key);
      InsertBySorted(init, x, key);
      var r := InsertBy(init, x, key);
      forall i | 0 <= i < |r| ensures key(r[i]) <= key(last) {
        assert r[i] in multiset(r);
        if r[i] != x {
          assert r[i] in multiset(init);
          var k :| 0 <= k < |init| && init[k] == r[i];
          assert s[k] == r[i];
        }
      }
    }
  }

  /** LINQ's OrderBy: a stable sort on the key (insertion sort). */
  function OrderBy<T>(s: seq<T>, key: T -> int): (r: seq<T>)
    ensures SortedBy(r, key)
    ensures multiset(r) == multiset(s)
  {
    if s == [] then []
    else
      assert s == s[..|s| - 1] + [s[|s| - 1]];
      var sorted := OrderBy(s[..|s| - 1], key);
      InsertBySorted(sorted, s[|s| - 1], key);
      InsertBy(sorted, s[|s| - 1], key)
  }

  /** Ordering a list that is already ordered leaves it as it is. */
  lemma {:induction false} OrderByOfSorted<T>(s: seq<T>, key: T -> int)
    requires SortedBy(s, key)
    ensures OrderBy(s, key) == s
  {
    if s != [] {
      var init := s[..|s| - 1];
      assert SortedBy(init, key);
      OrderByOfSorted(init, key);
      assert init == [] || key(init[|init| - 1]) <= key(s[|s| - 1]);
      assert s == init + [s[|s| - 1]];
    }
  }

  /**
   * ImmutableList.Remove: drops the first element equal to x, and leaves the
   * list as it is when x does not occur.
   */
  function Remove<T(==)>(s: seq<T>, x: T): (r: seq<T>)
    ensures x !in s ==> r == s
    ensures x in s ==> |r| == |s| - 1
    ensures x in s ==> RemovedFirst(s, x, r)
    ensures multiset(r) == multiset(s) - multiset{x}
  {
    if s == [] then []
    else if s[0] == x then
      assert s == [s[0]] + s[1..];
      assert s[..0] + s[1..] == s[1..];
      s[1..]
    else
      assert s == [s[0]] + s[1..];
      var rest := Remove(s[1..], x);
      assert x in s ==> RemovedFirst(s, x, [s[0]] + rest) by {
        if x in s {
          assert x in s[1..];
          RemoveFirstShapeCons(s[0], s[1..], x, rest);
        }
      }
      [s[0]] + rest
  }

  /** r is s with its first occurrence of x taken out. */
  predicate RemovedFirst<T(==)>(s: seq<T>, x: T, r: seq<T>) {
    exists i :: 0 <= i < |s| && s[i] == x && x !in s[..i] && r == s[..i] + s[i + 1..]
  }

  /** Taking the first x out of t, with a head other than x in front, takes it out of the whole. */
  lemma RemoveFirstShapeCons<T>(h: T, t: seq<T>, x: T, rest: seq<T>)
    requires h != x && RemovedFirst(t, x, rest)
    ensures RemovedFirst([h] + t, x, [h] + rest)
  {
    var s := [h] + t;
    var j :| 0 <= j < |t| && t[j] == x && x !in t[..j] && rest == t[..j] + t[j + 1..];
    var i := j + 1;
    assert s[..i] == [h] + t[..j];
    assert x !in s[..i];
    assert s[i + 1..] == t[j + 1..];
    assert [h] + rest == s[..i] + s[i + 1..];
    assert s[i] == x;
  }

  /** Removing the last element, when it occurs nowhere else, drops just that element. */
  lemma {:induction false} RemoveDistinctLast<T>(s: seq<T>)
    requires s != [] && s[|s| - 1] !in s[..|s| - 1]
    ensures Remove(s, s[|s| - 1]) == s[..|s| - 1]
  {
    var x := s[|s| - 1];
    if |s| > 1 {
      assert s[0] in s[..|s| - 1];
      assert s[1..][..|s[1..]| - 1] == s[1..|s| - 1];
      RemoveDistinctLast(s[1..]);
      assert s[..|s| - 1] == [s[0]] + s[1..|s| - 1];
    }
  }

  /** ImmutableList.RemoveAll: keeps, in their order, the elements p rejects. */
  function RemoveAll<T>(s: seq<T>, p: T -> bool): (r: seq<T>)
    ensures forall x :: x in r ==> x in s && !p(x)
    ensures forall x :: x in s && !p(x) ==> x in r
    ensures |r| <= |s|
  {
    if s == [] then []
    else
      assert s == [s[0]] + s[1..];
      if p(s[0]) then RemoveAll(s[1..], p) else [s[0]] + RemoveAll(s[1..], p)
  }

  /** One step of RemoveAll on a list given as head and tail. */
  lemma RemoveAllCons<T>(x: T, s: seq<T>, p: T -> bool)
    ensures p(x) ==> RemoveAll([x] + s, p) == RemoveAll(s, p)
    ensures !p(x) ==> RemoveAll([x] + s, p) == [x] + RemoveAll(s, p)
  {
    assert ([x] + s)[1..] == s;
  }

  /** RemoveAll works element by element, so it distributes over concatenation. */
  lemma {:induction false} RemoveAllAppend<T>(a: seq<T>, b: seq<T>, p: T -> bool)
    ensures RemoveAll(a + b, p) == RemoveAll(a, p) + RemoveAll(b, p)
  {
    if a != [] {
      var x, t := a[0], a[1..];
      assert a == [x] + t;
      assert a + b == [x] + (t + b);
      RemoveAllAppend(t, b, p);
      RemoveAllCons(x, t + b, p);
      RemoveAllCons(x, t, p);
    } else {
      assert a + b == b;
    }
  }

  /** When no element matches, RemoveAll leaves the list unchanged. */
  lemma {:induction false} RemoveAllNoMatch<T>(s: seq<T>, p: T -> bool)
    requires forall x :: x in s ==> !p(x)
    ensures RemoveAll(s, p) == s
  {
    if s != [] {
      assert s[0] in s;
      RemoveAllNoMatch(s[1..], p);
      assert s == [s[0]] + s[1..];
    }
  }

  /**
   * Removing with a weaker rule p and then with a stronger rule q, in either
   * order, is removing with q alone; with p == q this is idempotence.
   */
  lemma {:induction false} RemoveAllAbsorb<T>(s: seq<T>, p: T -> bool, q: T -> bool)
    requires forall x :: p(x) ==> q(x)
    ensures RemoveAll(RemoveAll(s, p), q) == RemoveAll(s, q)
    ensures RemoveAll(RemoveAll(s, q), p) == RemoveAll(s, q)
  {
    RemoveAllNoMatch(RemoveAll(s, q), p);
    if s != [] {
      var x, tail := s[0], s[1..];
      assert s == [x] + tail;
      RemoveAllAbsorb(tail, p, q);
      RemoveAllCons(x, tail, q);
      RemoveAllCons(x, tail, p);
      if p(x) {
        assert q(x);
      } else {
        RemoveAllCons(x, RemoveAll(tail, p), q);
      }
    }
  }

  /** RemoveAll keeps a subsequence, so strictly increasing keys stay strictly increasing. */
  lemma {:induction false} RemoveAllKeepsStrictlyIncreasing<T>(s: seq<T>, p: T -> bool, key: T -> int)
    requires StrictlyIncreasingBy(s, key)
    ensures StrictlyIncreasingBy(RemoveAll(s, p), key)
  {
    if s != [] {
      var rest := RemoveAll(s[1..], p);
      RemoveAllKeepsStrictlyIncreasing(s[1..], p, key);
      forall y | y in rest ensures key(s[0]) < key(y) {
        var j :| 0 <= j < |s[1..]| && s[1..][j] == y;
        assert s[j + 1] == y;
      }
    }
  }
}

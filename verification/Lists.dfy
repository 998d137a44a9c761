/** Sequence helpers: a stable insertion sort by an integer key, and pigeonhole. */
module Lists {
  function Insert<T>(x: T, xs: seq<T>, key: T -> int): (r: seq<T>)
    ensures |r| == |xs| + 1
  {
    if xs == [] || key(x) < key(xs[0]) then [x] + xs else [xs[0]] + Insert(x, xs[1..], key)
  }

  /** The stable sort behind `list.sort_by`. */
  function SortBy<T>(xs: seq<T>, key: T -> int): (r: seq<T>)
    ensures |r| == |xs|
  {
    if xs == [] then [] else Insert(xs[|xs| - 1], SortBy(xs[..|xs| - 1], key), key)
  }

  ghost predicate Ascending<T>(xs: seq<T>, key: T -> int) {
    forall i, j :: 0 <= i < j < |xs| ==> key(xs[i]) <= key(xs[j])
  }

  ghost predicate StrictlyAscending<T>(xs: seq<T>, key: T -> int) {
    forall i, j :: 0 <= i < j < |xs| ==> key(xs[i]) < key(xs[j])
  }

  lemma {:induction false} InsertAdds<T>(x: T, xs: seq<T>, key: T -> int)
    ensures multiset(Insert(x, xs, key)) == multiset(xs) + multiset{x}
  {
    if xs != [] && key(x) >= key(xs[0]) {
      InsertAdds(x, xs[1..], key);
      assert xs == [xs[0]] + xs[1..];
    }
  }

  /** Insertion keeps every lower bound. */
  lemma {:induction false} InsertIsBounded<T>(x: T, xs: seq<T>, key: T -> int, low: int)
    requires low <= key(x) && forall i :: 0 <= i < |xs| ==> low <= key(xs[i])
    ensures forall i :: 0 <= i < |xs| + 1 ==> low <= key(Insert(x, xs, key)[i])
  {
    if xs != [] && key(x) >= key(xs[0]) {
      InsertIsBounded(x, xs[1..], key, low);
    }
  }

  lemma {:induction false} InsertAscends<T>(x: T, xs: seq<T>, key: T -> int)
    requires Ascending(xs, key)
    ensures Ascending(Insert(x, xs, key), key)
  {
    if xs != [] && key(x) >= key(xs[0]) {
      InsertAscends(x, xs[1..], key);
      InsertIsBounded(x, xs[1..], key, key(xs[0]));
    }
  }

  lemma {:induction false} SortByIsSorted<T>(xs: seq<T>, key: T -> int)
    ensures Ascending(SortBy(xs, key), key)
    ensures multiset(SortBy(xs, key)) == multiset(xs)
  {
    if xs != [] {
      var front := xs[..|xs| - 1];
      SortByIsSorted(front, key);
      InsertAdds(xs[|xs| - 1], SortBy(front, key), key);
      InsertAscends(xs[|xs| - 1], SortBy(front, key), key);
      assert xs == front + [xs[|xs| - 1]];
    }
  }

  // ---------- Stability ----------

  /** The elements with this key, in order. */
  function WithKey<T>(xs: seq<T>, key: T -> int, k: int): (r: seq<T>)
    ensures |r| <= |xs|
  {
    if xs == [] then [] else (if key(xs[0]) == k then [xs[0]] else []) + WithKey(xs[1..], key, k)
  }

  lemma {:induction false} WithKeySplits<T>(a: seq<T>, b: seq<T>, key: T -> int, k: int)
    ensures WithKey(a + b, key, k) == WithKey(a, key, k) + WithKey(b, key, k)
  {
    if a == [] {
      assert a + b == b;
    } else {
      var c := a + b;
      assert c[0] == a[0] && c[1..] == a[1..] + b;
      WithKeySplits(a[1..], b, key, k);
      var head := if key(a[0]) == k then [a[0]] else [];
      assert WithKey(c, key, k) == head + (WithKey(a[1..], key, k) + WithKey(b, key, k));
    }
  }

  lemma {:induction false} WithKeyIsEmpty<T>(xs: seq<T>, key: T -> int, k: int)
    requires forall i :: 0 <= i < |xs| ==> key(xs[i]) != k
    ensures WithKey(xs, key, k) == []
  {
    if xs != [] {
      WithKeyIsEmpty(xs[1..], key, k);
    }
  }

  lemma {:induction false} InsertIsStable<T>(x: T, xs: seq<T>, key: T -> int, k: int)
    requires Ascending(xs, key)
    ensures WithKey(Insert(x, xs, key), key, k) == WithKey(xs, key, k) + WithKey([x], key, k)
  {
    if xs == [] {
      assert Insert(x, xs, key) == [x];
    } else if key(x) < key(xs[0]) {
      WithKeySplits([x], xs, key, k);
      if key(x) == k {
        WithKeyIsEmpty(xs, key, k);
      }
      assert key(x) != k ==> WithKey([x], key, k) == [];
    } else {
      InsertIsStable(x, xs[1..], key, k);
      var head := if key(xs[0]) == k then [xs[0]] else [];
      assert Insert(x, xs, key)[1..] == Insert(x, xs[1..], key);
      assert head + (WithKey(xs[1..], key, k) + WithKey([x], key, k)) == (head + WithKey(xs[1..], key, k)) + WithKey([x], key, k);
    }
  }

  /** The sort keeps the order of elements with equal keys. */
  lemma {:induction false} SortIsStable<T>(xs: seq<T>, key: T -> int, k: int)
    ensures WithKey(SortBy(xs, key), key, k) == WithKey(xs, key, k)
    decreases |xs|
  {
    if xs != [] {
      var front, last := xs[..|xs| - 1], xs[|xs| - 1];
      SortIsStable(front, key, k);
      SortByIsSorted(front, key);
      InsertIsStable(last, SortBy(front, key), key, k);
      WithKeySplits(front, [last], key, k);
      assert xs == front + [last];
    }
  }

  lemma LeastKeyLeads<T>(a: seq<T>, b: seq<T>, key: T -> int)
    requires Ascending(a, key) && Ascending(b, key) && forall k :: WithKey(a, key, k) == WithKey(b, key, k)
    requires a != []
    ensures b != [] && key(b[0]) <= key(a[0])
  {
    assert WithKey(a, key, key(a[0])) != [];
    if forall i :: 0 <= i < |b| ==> key(b[i]) != key(a[0]) {
      WithKeyIsEmpty(b, key, key(a[0]));
    }
  }

  /** Two ascending lists that agree key by key are equal. */
  lemma {:induction false} StableOrderIsUnique<T>(a: seq<T>, b: seq<T>, key: T -> int)
    requires Ascending(a, key) && Ascending(b, key) && forall k :: WithKey(a, key, k) == WithKey(b, key, k)
    ensures a == b
    decreases |a|
  {
    if a != [] {
      LeastKeyLeads(a, b, key);
      LeastKeyLeads(b, a, key);
      assert WithKey(a, key, key(a[0]))[0] == a[0] && WithKey(b, key, key(a[0]))[0] == b[0];
      forall k ensures WithKey(a[1..], key, k) == WithKey(b[1..], key, k) {
        var head := if key(a[0]) == k then [a[0]] else [];
        assert WithKey(a, key, k)[|head|..] == WithKey(a[1..], key, k);
        assert WithKey(b, key, k)[|head|..] == WithKey(b[1..], key, k);
      }
      StableOrderIsUnique(a[1..], b[1..], key);
      assert a == [a[0]] + a[1..] && b == [b[0]] + b[1..];
    } else if b != [] {
      LeastKeyLeads(b, a, key);
    }
  }

  lemma HeadsAgree<T>(a: seq<T>, b: seq<T>, key: T -> int)
    requires Ascending(a, key) && StrictlyAscending(b, key)
    requires multiset(a) == multiset(b) && a != [] && b != []
    ensures a[0] == b[0]
  {
    assert b[0] in multiset(a) && a[0] in multiset(b);
    var i :| 0 <= i < |a| && a[i] == b[0];
    var j :| 0 <= j < |b| && b[j] == a[0];
    assert key(a[0]) <= key(a[i]);
  }

  /** Two ascending arrangements of the same elements agree when one has distinct keys. */
  lemma {:induction false} SortedIsUnique<T>(a: seq<T>, b: seq<T>, key: T -> int)
    requires Ascending(a, key) && StrictlyAscending(b, key)
    requires multiset(a) == multiset(b)
    ensures a == b
  {
    assert |a| == |multiset(a)| && |b| == |multiset(b)|;
    if b != [] {
      HeadsAgree(a, b, key);
      TailOf(a);
      TailOf(b);
      SortedIsUnique(a[1..], b[1..], key);
    }
  }

  lemma TailOf<T>(xs: seq<T>)
    requires xs != []
    ensures xs == [xs[0]] + xs[1..] && multiset(xs[1..]) == multiset(xs) - multiset{xs[0]}
  {
    assert xs == [xs[0]] + xs[1..];
  }

  /** A longer list drawn from a finite set repeats an element. */
  lemma {:induction false} Pigeonhole<T>(xs: seq<T>, s: set<T>)
    requires forall x :: x in xs ==> x in s
    requires |xs| > |s|
    ensures exists i, j :: 0 <= i < j < |xs| && xs[i] == xs[j]
  {
    var last := xs[|xs| - 1];
    var front := xs[..|xs| - 1];
    if last in front {
      var i :| 0 <= i < |front| && front[i] == last;
      assert xs[i] == xs[|xs| - 1];
    } else {
      Pigeonhole(front, s - {last});
      var i, j :| 0 <= i < j < |front| && front[i] == front[j];
      assert xs[i] == xs[j];
    }
  }

  function Elements<T>(xs: seq<T>): set<T> {
    set x | x in xs
  }

  lemma ElementsExtend<T>(front: seq<T>, x: T)
    ensures Elements(front + [x]) == Elements(front) + {x}
  {
    assert forall y :: y in front + [x] <==> y in front || y == x;
  }

  lemma SomeElement<T>(s: set<T>) returns (x: T)
    requires |s| > 0
    ensures x in s
  {
    x :| x in s;
  }

  lemma {:induction false} MaximumExists(xs: set<int>)
    requires |xs| > 0
    ensures exists m :: m in xs && forall x :: x in xs ==> x <= m
    decreases |xs|
  {
    var x := SomeElement(xs);
    var rest := xs - {x};
    assert xs == rest + {x};
    if rest != {} {
      MaximumExists(rest);
      var m :| m in rest && forall y :: y in rest ==> y <= m;
      var top := if x > m then x else m;
      assert top in xs && forall y :: y in xs ==> y <= top;
    }
  }
}

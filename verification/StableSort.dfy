/** The stable sort the fold and the stamper call, with the facts that make it the only one. */
module StableSort {

  predicate Sorted<T>(xs: seq<T>, key: T -> int) {
    forall i, j :: 0 <= i < j < |xs| ==> key(xs[i]) <= key(xs[j])
  }

  /** The elements of `xs` with key `k`, in order. */
  function WithKey<T>(xs: seq<T>, key: T -> int, k: int): seq<T> {
    if xs == [] then []
    else
      var rest := WithKey(xs[..|xs| - 1], key, k);
      if key(xs[|xs| - 1]) == k then rest + [xs[|xs| - 1]] else rest
  }

  /** The position `e` takes in `xs`: after the last element whose key does not exceed its own. */
  function Slot<T>(xs: seq<T>, key: T -> int, e: T): (p: nat)
    ensures p <= |xs|
    ensures p > 0 ==> key(xs[p - 1]) <= key(e)
    ensures forall i :: p <= i < |xs| ==> key(xs[i]) > key(e)
  {
    if xs == [] then 0
    else if key(xs[|xs| - 1]) <= key(e) then |xs|
    else
      var front := xs[..|xs| - 1];
      var p := Slot(front, key, e);
      assert forall i :: p <= i < |front| ==> xs[i] == front[i];
      p
  }

  function Insert<T>(xs: seq<T>, key: T -> int, e: T): seq<T> {
    var p := Slot(xs, key, e);
    xs[..p] + [e] + xs[p..]
  }

  function Sort<T>(xs: seq<T>, key: T -> int): seq<T> {
    if xs == [] then [] else Insert(Sort(xs[..|xs| - 1], key), key, xs[|xs| - 1])
  }

  lemma {:induction false} WithKeyConcat<T>(a: seq<T>, b: seq<T>, key: T -> int, k: int)
    ensures WithKey(a + b, key, k) == WithKey(a, key, k) + WithKey(b, key, k)
  {
    if b == [] {
      assert a + b == a;
    } else {
      var front := b[..|b| - 1];
      assert (a + b)[..|a + b| - 1] == a + front;
      assert (a + b)[|a + b| - 1] == b[|b| - 1];
      WithKeyConcat(a, front, key, k);
    }
  }

  lemma {:induction false} WithKeyNone<T>(xs: seq<T>, key: T -> int, k: int)
    requires forall x :: x in xs ==> key(x) != k
    ensures WithKey(xs, key, k) == []
  {
    if xs != [] {
      assert xs[|xs| - 1] in xs;
      WithKeyNone(xs[..|xs| - 1], key, k);
    }
  }

  lemma WithKeyOne<T>(e: T, key: T -> int, k: int)
    ensures WithKey([e], key, k) == if key(e) == k then [e] else []
  {
    assert [e][..0] == [];
  }

  /** Inserting an element keeps every key class in order, with the newcomer last in its own. */
  lemma InsertStable<T>(xs: seq<T>, key: T -> int, e: T, k: int)
    ensures WithKey(Insert(xs, key, e), key, k) == WithKey(xs + [e], key, k)
  {
    var p := Slot(xs, key, e);
    var a, b := xs[..p], xs[p..];
    assert xs == a + b;
    WithKeyConcat(a + [e], b, key, k);
    WithKeyConcat(a, [e], key, k);
    WithKeyConcat(a, b, key, k);
    WithKeyConcat(xs, [e], key, k);
    WithKeyOne(e, key, k);
    if key(e) == k {
      WithKeyNone(b, key, k);
    }
  }

  /** Sorting is stable: it keeps every key class in its original order. */
  lemma {:induction false} SortStable<T>(xs: seq<T>, key: T -> int, k: int)
    ensures WithKey(Sort(xs, key), key, k) == WithKey(xs, key, k)
  {
    if xs != [] {
      var front, e := xs[..|xs| - 1], xs[|xs| - 1];
      var s := Sort(front, key);
      SortStable(front, key, k);
      InsertStable(s, key, e, k);
      WithKeyConcat(s, [e], key, k);
      WithKeyConcat(front, [e], key, k);
      assert xs == front + [e];
    }
  }

  lemma {:induction false} SortSorted<T>(xs: seq<T>, key: T -> int)
    ensures Sorted(Sort(xs, key), key)
  {
    if xs != [] {
      var s, e := Sort(xs[..|xs| - 1], key), xs[|xs| - 1];
      SortSorted(xs[..|xs| - 1], key);
      var p := Slot(s, key, e);
      var r := Sort(xs, key);
      forall i, j | 0 <= i < j < |r| ensures key(r[i]) <= key(r[j]) {
        assert r == s[..p] + [e] + s[p..];
        if p > 0 && i < p { assert key(s[i]) <= key(s[p - 1]); }
      }
    }
  }

  lemma InsertPermutes<T>(xs: seq<T>, key: T -> int, e: T)
    ensures multiset(Insert(xs, key, e)) == multiset(xs) + multiset{e}
  {
    var p := Slot(xs, key, e);
    var a, b := xs[..p], xs[p..];
    assert xs == a + b;
    assert multiset(xs) == multiset(a) + multiset(b);
    assert multiset(a + [e] + b) == multiset(a) + multiset{e} + multiset(b);
  }

  /** Sorting permutes. */
  lemma {:induction false} SortPermutes<T>(xs: seq<T>, key: T -> int)
    ensures multiset(Sort(xs, key)) == multiset(xs)
    ensures |Sort(xs, key)| == |xs|
  {
    if xs != [] {
      var front, e := xs[..|xs| - 1], xs[|xs| - 1];
      SortPermutes(front, key);
      InsertPermutes(Sort(front, key), key, e);
      assert xs == front + [e];
    }
  }

  lemma {:induction false} WithKeyHas<T>(xs: seq<T>, key: T -> int, i: nat)
    requires i < |xs|
    ensures WithKey(xs, key, key(xs[i])) != []
  {
    if i < |xs| - 1 {
      WithKeyHas(xs[..|xs| - 1], key, i);
    }
  }

  lemma {:induction false} WithKeyIn<T>(xs: seq<T>, key: T -> int, k: int)
    ensures WithKey(xs, key, k) != [] ==> exists i :: 0 <= i < |xs| && key(xs[i]) == k
  {
    if xs != [] && key(xs[|xs| - 1]) != k {
      WithKeyIn(xs[..|xs| - 1], key, k);
    }
  }

  /** Sorted sequences with the same key classes end in the same element. */
  lemma SameLast<T>(xs: seq<T>, ys: seq<T>, key: T -> int)
    requires Sorted(xs, key) && Sorted(ys, key)
    requires forall k :: WithKey(xs, key, k) == WithKey(ys, key, k)
    requires xs != []
    ensures ys != [] && xs[|xs| - 1] == ys[|ys| - 1]
  {
    var v := key(xs[|xs| - 1]);
    WithKeyHas(xs, key, |xs| - 1);
    WithKeyIn(ys, key, v);
    var w := key(ys[|ys| - 1]);
    WithKeyHas(ys, key, |ys| - 1);
    WithKeyIn(xs, key, w);
    assert v == w;
    var cx, cy := WithKey(xs, key, v), WithKey(ys, key, v);
    assert cx == cy && cx[|cx| - 1] == xs[|xs| - 1] && cy[|cy| - 1] == ys[|ys| - 1];
  }

  lemma FrontClasses<T>(xs: seq<T>, ys: seq<T>, key: T -> int, k: int)
    requires xs != [] && ys != [] && xs[|xs| - 1] == ys[|ys| - 1]
    requires WithKey(xs, key, k) == WithKey(ys, key, k)
    ensures WithKey(xs[..|xs| - 1], key, k) == WithKey(ys[..|ys| - 1], key, k)
  {
    var cx, cy := WithKey(xs[..|xs| - 1], key, k), WithKey(ys[..|ys| - 1], key, k);
    if key(xs[|xs| - 1]) == k {
      assert cx == (cx + [xs[|xs| - 1]])[..|cx|];
      assert cy == (cy + [ys[|ys| - 1]])[..|cy|];
    }
  }

  /** Two sorted sequences with the same key classes are equal; so `Sort` is the only stable sort. */
  lemma {:induction false} SortedUnique<T>(xs: seq<T>, ys: seq<T>, key: T -> int)
    requires Sorted(xs, key) && Sorted(ys, key)
    requires forall k :: WithKey(xs, key, k) == WithKey(ys, key, k)
    ensures xs == ys
    decreases |xs|
  {
    if xs == [] {
      if ys != [] {
        assert WithKey(xs, key, key(ys[0])) == [];
        WithKeyHas(ys, key, 0);
      }
    } else {
      SameLast(xs, ys, key);
      var fx, fy := xs[..|xs| - 1], ys[..|ys| - 1];
      forall k ensures WithKey(fx, key, k) == WithKey(fy, key, k) {
        FrontClasses(xs, ys, key, k);
      }
      SortedUnique(fx, fy, key);
      assert xs == fx + [xs[|xs| - 1]] && ys == fy + [ys[|ys| - 1]];
    }
  }
}

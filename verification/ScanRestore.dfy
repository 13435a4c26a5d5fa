/** Replacing attribute texts twice. */
module ScanRestore {
  import opened Scanner
  import opened ScanEdit
  import opened ScanTwin
  import opened ScanReplace

  /** The attribute texts of tags. */
  function Texts(o: seq<OpenTag>): (n: seq<string>)
    ensures |n| == |o| && forall k :: 0 <= k < |o| ==> n[k] == o[k].attrs
  {
    seq(|o|, k requires 0 <= k < |o| => o[k].attrs)
  }

  lemma SamePrefix(e: Edit, i: nat, i': nat, k: nat, a: nat)
    requires Fine(e) && k < |e.o| && TagFits(e.x, e.o[k]) && i <= a <= AttrsAt(e.o[k]) && i' <= |e.y|
    requires e.y[i'..] == Tail(e.x, e.o, e.n, i, k)
    ensures i' + (a - i) <= |e.y| && e.y[i'..i' + (a - i)] == e.x[i..a]
  {
    TailDrop(e.x, e.o, e.n, i, k, a - i);
    assert e.y[i'..i' + (a - i)] == e.y[i'..][..a - i];
  }

  lemma BehindAttrs(e: Edit, i: nat, i': nat, k: nat)
    requires Fine(e) && k < |e.o| && TagFits(e.x, e.o[k]) && i <= AttrsAt(e.o[k]) && i' <= |e.y|
    requires e.y[i'..] == Tail(e.x, e.o, e.n, i, k)
    ensures
      var j := i' + (AttrsAt(e.o[k]) - i) + |e.n[k]|;
      j <= |e.y| && e.y[j..] == Tail(e.x, e.o, e.n, e.o[k].openEnd - 1, k + 1)
  {
    var a := AttrsAt(e.o[k]);
    Pieces(e.y, i', e.x[i..a], e.n[k], Tail(e.x, e.o, e.n, e.o[k].openEnd - 1, k + 1));
  }

  /** Position `i` of `x` stands for `i'` of `y`, not behind the attributes of tag `k`. */
  predicate Tracks(e: Edit, i: nat, i': nat, k: nat)
    requires Fine(e)
  {
    && k <= |e.o| && i <= |e.x| && i' <= |e.y| && (k < |e.o| ==> i <= AttrsAt(e.o[k]))
    && i' == i + Shift(e.o, e.n, k) && e.y[i'..] == Tail(e.x, e.o, e.n, i, k)
  }

  lemma PlacedFront(e: Edit, q: OpenTag, k: nat, i: nat, i': nat)
    requires Fine(e) && k < |e.o| && PlacedAt(e, q, k) && q.origTag == e.o[k].origTag && TagFits(e.x, e.o[k]) &&
             TagFits(e.y, q)
    requires Tracks(e, i, i', k)
    ensures i' <= AttrsAt(q) && AttrsAt(q) - i' == AttrsAt(e.o[k]) - i
    ensures e.y[i'..AttrsAt(q)] == e.x[i..AttrsAt(e.o[k])]
  {
    SamePrefix(e, i, i', k, AttrsAt(e.o[k]));
  }

  lemma PlacedEnds(e: Edit, q: OpenTag, k: nat, i: nat, i': nat)
    requires Fine(e) && k < |e.o| && PlacedAt(e, q, k) && q.origTag == e.o[k].origTag && TagFits(e.x, e.o[k]) &&
             TagFits(e.y, q)
    requires i' == i + Shift(e.o, e.n, k)
    ensures i' + (AttrsAt(e.o[k]) - i) + |e.n[k]| == q.openEnd - 1 == e.o[k].openEnd - 1 + Shift(e.o, e.n, k + 1)
  {
  }

  lemma PlacedBack(e: Edit, q: OpenTag, k: nat, i: nat, i': nat, b: nat, b': nat)
    requires Fine(e) && k < |e.o| && PlacedAt(e, q, k) && q.origTag == e.o[k].origTag && TagFits(e.x, e.o[k]) &&
             TagFits(e.y, q)
    requires Tracks(e, i, i', k) && b == e.o[k].openEnd - 1 && b' == q.openEnd - 1
    ensures AttrsAt(q) <= b' && Tracks(e, b, b', k + 1)
  {
    PlacedEnds(e, q, k, i, i');
    BehindAttrs(e, i, i', k);
    NextBehind(e, k);
  }

  lemma NextBehind(e: Edit, k: nat)
    requires Fine(e) && k < |e.o|
    ensures k + 1 < |e.o| ==> e.o[k].openEnd <= AttrsAt(e.o[k + 1])
  {
  }

  /** At a placed tag: the text in front of its attributes, and the text behind them. */
  lemma AtPlaced(e: Edit, p: seq<OpenTag>, k: nat, i: nat, i': nat, b: nat, b': nat)
    requires Fine(e) && TagsFit(e.y, p) && Placements(e, p) && Twins(e.o, p) && k < |e.o| && Tracks(e, i, i', k)
    requires b == e.o[k].openEnd - 1 && b' == p[k].openEnd - 1
    ensures i' <= AttrsAt(p[k]) <= b' <= |e.y| && i <= AttrsAt(e.o[k]) <= |e.x| &&
            e.y[i'..AttrsAt(p[k])] == e.x[i..AttrsAt(e.o[k])]
    ensures Tracks(e, b, b', k + 1)
  {
    assert TagFits(e.x, e.o[k]) && TagFits(e.y, p[k]) && Twin(e.o[k], p[k]) && PlacedAt(e, p[k], k);
    PlacedFront(e, p[k], k, i, i');
    PlacedBack(e, p[k], k, i, i', b, b');
  }

  /** Up to the `>` of a tag, putting its old attribute text back gives the old text. */
  lemma RestoreOne(e: Edit, p: seq<OpenTag>, n: seq<string>, k: nat, i: nat, i': nat, b: nat, b': nat)
    requires TagsFit(e.y, p) && k < |e.o| == |p| == |n| && TagFits(e.x, e.o[k]) && TagFits(e.y, p[k]) &&
             n[k] == e.o[k].attrs
    requires i <= AttrsAt(e.o[k]) && b == e.o[k].openEnd - 1 && b' == p[k].openEnd - 1 && i' <= AttrsAt(p[k])
    requires e.y[i'..AttrsAt(p[k])] == e.x[i..AttrsAt(e.o[k])]
    requires k + 1 < |p| ==> b' <= AttrsAt(p[k + 1])
    ensures Tail(e.y, p, n, i', k) == e.x[i..b] + Tail(e.y, p, n, b', k + 1)
  {
    var a := AttrsAt(e.o[k]);
    assert e.x[i..a] + e.x[a..b] == e.x[i..b];
  }

  lemma Grows(x: string, i: nat, b: nat, was: string, more: string, goal: string)
    requires i <= b <= |x| && x[..i] + was == goal && was == x[i..b] + more
    ensures x[..b] + more == goal
  {
    assert x[..b] == x[..i] + x[i..b];
  }

  lemma Whole(x: string, i: nat)
    requires i <= |x|
    ensures x[..i] + x[i..] == x
  {
  }

  lemma NextFits(y: string, p: seq<OpenTag>, k: nat)
    requires TagsFit(y, p) && k < |p|
    ensures TagFits(y, p[k]) && (k + 1 < |p| ==> p[k].openEnd <= AttrsAt(p[k + 1]))
  {
  }

  /** Putting the old attribute texts back restores the document. */
  lemma Restores(e: Edit, p: seq<OpenTag>)
    requires Fine(e) && e.y == Replaced(e.x, e.o, e.n) && TagsFit(e.y, p) && Placements(e, p) && Twins(e.o, p)
    ensures Replaced(e.y, p, Texts(e.o)) == e.x
  {
    var n := Texts(e.o);
    var goal := Replaced(e.y, p, n);
    var k: nat, i: nat, i': nat := 0, 0, 0;
    assert e.y[0..] == e.y && e.x[..0] + goal == goal;
    while k < |e.o|
      invariant k <= |e.o| && Tracks(e, i, i', k) && (k < |p| ==> i' <= AttrsAt(p[k]))
      invariant e.x[..i] + Tail(e.y, p, n, i', k) == goal
    {
      NextFits(e.x, e.o, k);
      NextFits(e.y, p, k);
      var b: nat, b': nat := e.o[k].openEnd - 1, p[k].openEnd - 1;
      AtPlaced(e, p, k, i, i', b, b');
      RestoreOne(e, p, n, k, i, i', b, b');
      Grows(e.x, i, b, Tail(e.y, p, n, i', k), Tail(e.y, p, n, b', k + 1), goal);
      k, i, i' := k + 1, b, b';
    }
    Whole(e.x, i);
  }

  // ----- how long the result is

  lemma TailStep(x: string, o: seq<OpenTag>, n: seq<string>, i: nat, k: nat)
    requires TagsFit(x, o) && |n| == |o| && k < |o| && TagFits(x, o[k]) && i <= AttrsAt(o[k]) && i <= |x|
    ensures |Tail(x, o, n, i, k)| == AttrsAt(o[k]) - i + |n[k]| + |Tail(x, o, n, o[k].openEnd - 1, k + 1)|
    ensures Shift(o, n, k + 1) == Shift(o, n, k) + |n[k]| - (o[k].openEnd - 1 - AttrsAt(o[k]))
  {
  }

  lemma NextAttrs(x: string, o: seq<OpenTag>, k: nat) returns (b: nat)
    requires TagsFit(x, o) && k < |o|
    ensures TagFits(x, o[k]) && b == o[k].openEnd - 1 && b <= |x| && (k + 1 < |o| ==> b <= AttrsAt(o[k + 1]))
  {
    assert TagFits(x, o[k]);
    b := o[k].openEnd - 1;
  }

  lemma {:induction false} TailLength(x: string, o: seq<OpenTag>, n: seq<string>, i: nat, k: nat)
    requires TagsFit(x, o) && |n| == |o| && k <= |o| && i <= |x| && (k < |o| ==> i <= AttrsAt(o[k]))
    ensures |Tail(x, o, n, i, k)| == |x| - i + Shift(o, n, |o|) - Shift(o, n, k)
    decreases |o| - k
  {
    if k < |o| {
      var b := NextAttrs(x, o, k);
      TailLength(x, o, n, b, k + 1);
      TailStep(x, o, n, i, k);
    }
  }

  /** The second replacement counts from the first. */
  lemma {:induction false} ShiftTwice(o: seq<OpenTag>, p: seq<OpenTag>, n: seq<string>, m: seq<string>, k: nat)
    requires |o| == |p| == |n| == |m| && k <= |o| && forall j :: 0 <= j < |o| ==> p[j].attrs == n[j]
    ensures Shift(o, n, k) + Shift(p, m, k) == Shift(o, m, k)
  {
    if k > 0 {
      ShiftTwice(o, p, n, m, k - 1);
    }
  }

  lemma {:induction false} ShiftGrows(o: seq<OpenTag>, m: seq<string>, k: nat, longer: nat)
    requires |o| == |m| && k <= |o| && longer < |o| && forall j :: 0 <= j < |o| ==> |o[j].attrs| <= |m[j]|
    requires |o[longer].attrs| < |m[longer]|
    ensures Shift(o, m, k) >= 0 && (longer < k ==> Shift(o, m, k) > 0)
  {
    if k > 0 {
      ShiftGrows(o, m, k - 1, longer);
    }
  }

  /** When the second replacement leaves some tag with a longer text than at first, and none with a shorter one,
      the document is not restored. */
  lemma NotRestored(e: Edit, p: seq<OpenTag>, m: seq<string>, longer: nat)
    requires Fine(e) && e.y == Replaced(e.x, e.o, e.n) && TagsFit(e.y, p) && Placements(e, p) && |p| == |e.o| == |m|
    requires longer < |e.o| && forall j :: 0 <= j < |e.o| ==> |e.o[j].attrs| <= |m[j]|
    requires |e.o[longer].attrs| < |m[longer]|
    ensures Replaced(e.y, p, m) != e.x
  {
    TailLength(e.x, e.o, e.n, 0, 0);
    TailLength(e.y, p, m, 0, 0);
    forall j | 0 <= j < |p| ensures p[j].attrs == e.n[j] { assert PlacedAt(e, p[j], j); }
    ShiftTwice(e.o, p, e.n, m, |p|);
    ShiftGrows(e.o, m, |p|, longer);
  }
}

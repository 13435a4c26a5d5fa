/** The stamper as the program runs it (internal/core/stamp.go): loops over tags, a growing text and a cursor.
    `Written` and `Copying` say how much of the edited document the text holds. */
module StampLoop {
  import opened AttrText
  import opened Scanner
  import opened ScanLoop
  import opened ScanEdit
  import opened ScanReplace
  import opened ScanRestore
  import opened Stamper
  import StableSort

  // ----- writing the edited text from left to right

  /** `out` is the edited text up to position `i`, behind `k` tags. */
  predicate Written(x: string, o: seq<OpenTag>, n: seq<string>, out: string, i: nat, k: nat)
    requires TagsFit(x, o)
  {
    && |n| == |o| && k <= |o| && i <= |x| && (k < |o| ==> i <= AttrsAt(o[k]))
    && out + Tail(x, o, n, i, k) == Replaced(x, o, n)
  }

  lemma Appended(out: string, piece: string, more: string, goal: string, was: string)
    requires out + was == goal && was == piece + more
    ensures (out + piece) + more == goal
  {
  }

  /** Copying within the text in front of a tag's attributes. */
  lemma CopyTo(x: string, o: seq<OpenTag>, n: seq<string>, out: string, i: nat, k: nat, j: nat)
    requires TagsFit(x, o) && Written(x, o, n, out, i, k) && i <= j <= |x| && (k < |o| ==> j <= AttrsAt(o[k]))
    ensures Written(x, o, n, out + x[i..j], j, k)
  {
    TailDrop(x, o, n, i, k, j - i);
    Whole(Tail(x, o, n, i, k), j - i);
    Appended(out, x[i..j], Tail(x, o, n, j, k), Replaced(x, o, n), Tail(x, o, n, i, k));
  }

  /** Writing a tag's new attribute text. */
  lemma WriteAttrs(x: string, o: seq<OpenTag>, n: seq<string>, out: string, k: nat)
    requires TagsFit(x, o) && k < |o| && TagFits(x, o[k]) && Written(x, o, n, out, AttrsAt(o[k]), k)
    ensures Written(x, o, n, out + n[k], o[k].openEnd - 1, k + 1)
  {
    NextFits(x, o, k);
    var a, more := AttrsAt(o[k]), Tail(x, o, n, o[k].openEnd - 1, k + 1);
    assert x[a..a] + n[k] + more == n[k] + more;
    Appended(out, n[k], more, Replaced(x, o, n), Tail(x, o, n, a, k));
  }

  /** Copying over a tag that keeps its attribute text. */
  lemma CopyOver(x: string, o: seq<OpenTag>, n: seq<string>, out: string, i: nat, k: nat)
    requires TagsFit(x, o) && k < |o| && TagFits(x, o[k]) && Written(x, o, n, out, i, k) && n[k] == o[k].attrs
    ensures i <= o[k].openEnd - 1 && Written(x, o, n, out + x[i..o[k].openEnd - 1], o[k].openEnd - 1, k + 1)
  {
    var a, b := AttrsAt(o[k]), o[k].openEnd - 1;
    CopyTo(x, o, n, out, i, k, a);
    WriteAttrs(x, o, n, out + x[i..a], k);
    assert out + x[i..a] + x[a..b] == out + x[i..b];
  }

  lemma Finished(x: string, o: seq<OpenTag>, n: seq<string>, out: string, i: nat)
    requires TagsFit(x, o) && Written(x, o, n, out, i, |o|)
    ensures out + x[i..] == Replaced(x, o, n)
  {
  }

  lemma Rejoin(out: string, x: string, c: nat, i: nat, j: nat)
    requires c <= i <= j <= |x|
    ensures out + x[c..i] + x[i..j] == out + x[c..j]
  {
  }

  /** `out` is the edited text up to `c`, and from there the text is to be copied up to `i`, behind `k` tags. */
  predicate Copying(x: string, o: seq<OpenTag>, n: seq<string>, out: string, c: nat, i: nat, k: nat)
    requires TagsFit(x, o)
  {
    c <= i <= |x| && Written(x, o, n, out + x[c..i], i, k)
  }

  lemma CopyingStarts(x: string, o: seq<OpenTag>, n: seq<string>)
    requires TagsFit(x, o) && |n| == |o|
    ensures Copying(x, o, n, "", 0, 0, 0)
  {
    assert "" + x[0..0] + Replaced(x, o, n) == Replaced(x, o, n);
  }

  /** The loop passes a tag it leaves alone. */
  lemma PassTag(x: string, o: seq<OpenTag>, n: seq<string>, out: string, c: nat, i: nat, k: nat) returns (b: nat)
    requires TagsFit(x, o) && k < |o| && Copying(x, o, n, out, c, i, k) && n[k] == o[k].attrs
    ensures Copying(x, o, n, out, c, b, k + 1)
  {
    assert TagFits(x, o[k]);
    b := o[k].openEnd - 1;
    CopyOver(x, o, n, out + x[c..i], i, k);
    Rejoin(out, x, c, i, b);
  }

  lemma CopyToAttrs(x: string, o: seq<OpenTag>, n: seq<string>, out: string, c: nat, i: nat, k: nat)
    returns (front: string)
    requires TagsFit(x, o) && k < |o| && TagFits(x, o[k]) && Copying(x, o, n, out, c, i, k)
    ensures c <= AttrsAt(o[k]) && front == out + x[c..AttrsAt(o[k])] && Written(x, o, n, front, AttrsAt(o[k]), k)
  {
    front := out + x[c..AttrsAt(o[k])];
    CopyTo(x, o, n, out + x[c..i], i, k, AttrsAt(o[k]));
    Rejoin(out, x, c, i, AttrsAt(o[k]));
  }

  lemma NothingToCopy(x: string, o: seq<OpenTag>, n: seq<string>, out: string, b: nat, k: nat)
    requires TagsFit(x, o) && Written(x, o, n, out, b, k)
    ensures Copying(x, o, n, out, b, b, k)
  {
    assert out + x[b..b] == out;
  }

  /** The loop writes a tag's new attribute text. */
  lemma ChangeTag(x: string, o: seq<OpenTag>, n: seq<string>, out: string, c: nat, i: nat, k: nat)
    returns (b: nat, written: string)
    requires TagsFit(x, o) && k < |o| && Copying(x, o, n, out, c, i, k)
    ensures c <= AttrsAt(o[k]) <= b == o[k].openEnd - 1 && b <= |x|
    ensures written == out + x[c..AttrsAt(o[k])] + n[k] && Copying(x, o, n, written, b, b, k + 1)
  {
    assert TagFits(x, o[k]);
    var front := CopyToAttrs(x, o, n, out, c, i, k);
    b, written := o[k].openEnd - 1, front + n[k];
    WriteAttrs(x, o, n, front, k);
    NothingToCopy(x, o, n, written, b, k + 1);
  }

  lemma CopyingEnds(x: string, o: seq<OpenTag>, n: seq<string>, out: string, c: nat, i: nat)
    requires TagsFit(x, o) && Copying(x, o, n, out, c, i, |o|)
    ensures out + x[c..] == Replaced(x, o, n)
  {
    CopyTo(x, o, n, out + x[c..i], i, |o|, |x|);
    Rejoin(out, x, c, i, |x|);
    Finished(x, o, n, out + x[c..|x|], |x|);
    assert out + x[c..|x|] + x[|x|..] == out + x[c..];
  }

  // ----- stripping

  method StripAllAIDs(html: string, enc: HtmlEncoding) returns (r: string)
    ensures r == StripAll(html, enc)
  {
    var opens, _ := ScanOpenTags(html, enc);
    ScannedTagsFit(html, enc);
    r := CleanOpenTags(html, opens);
  }

  /** One turn of the stripping loop. */
  method CleanOne(html: string, opens: seq<OpenTag>, k: nat, text: string, from: nat, ghost n: seq<string>,
                  ghost i: nat)
    returns (out: string, cursor: nat, ghost next: nat)
    requires TagsFit(html, opens) && k < |opens| && n == Cleans(opens) && Copying(html, opens, n, text, from, i, k)
    ensures Copying(html, opens, n, out, cursor, next, k + 1)
    ensures cursor == 0 ==> out == text && from == 0
  {
    var open := opens[k];
    var cleaned := CleanTag(open);
    if cleaned == open.attrs {
      next := PassTag(html, opens, n, text, from, i, k);
      return text, from, next;
    }
    assert n[k] == cleaned;
    ghost var b, written := ChangeTag(html, opens, n, text, from, i, k);
    var attrsStart := open.start + 1 + |open.origTag|;
    out, cursor, next := text + html[from..attrsStart] + cleaned, open.openEnd - 1, b;
    assert out == written;
  }

  /** The stripping loop over the scanned tags. */
  method CleanOpenTags(html: string, opens: seq<OpenTag>) returns (r: string)
    requires TagsFit(html, opens)
    ensures r == Replaced(html, opens, Cleans(opens))
  {
    ghost var n := Cleans(opens);
    var out := "";
    var cursor: nat := 0;
    ghost var i: nat := 0;
    CopyingStarts(html, opens, n);
    for k := 0 to |opens|
      invariant Copying(html, opens, n, out, cursor, i, k)
      invariant cursor == 0 ==> out == ""
    {
      out, cursor, i := CleanOne(html, opens, k, out, cursor, n, i);
    }
    CopyingEnds(html, opens, n, out, cursor, i);
    if cursor == 0 {
      assert "" + html[0..] == html;
      return html;
    }
    return out + html[cursor..];
  }

  method CleanTag(open: OpenTag) returns (cleaned: string)
    ensures cleaned == CleanAttrs(open)
  {
    var attrs := open.attrs;
    cleaned := StripAIDAttribute(attrs);
    if cleaned == attrs {
      return;
    }
    var before := TerminalSelfCloseSlash(attrs);
    var after := TerminalSelfCloseSlash(cleaned);
    if before < 0 && after >= 0 && (open.ns != Html || IsVoid(open.tag)) {
      cleaned := cleaned + " ";
    }
  }

  // ----- salting

  method SaltAwayFromPinnedWithHasher(base: string, pinned: string, maxAttempts: nat, hash: (string, nat) -> string)
    returns (r: string)
    ensures r == Salted(base, pinned, 1, maxAttempts, hash)
  {
    var seed := 1;
    while seed <= maxAttempts
      invariant 1 <= seed <= maxAttempts + 1
      invariant Salted(base, pinned, seed, maxAttempts, hash) == Salted(base, pinned, 1, maxAttempts, hash)
    {
      var salted := hash(base, seed);
      if salted != pinned {
        return salted;
      }
      seed := seed + 1;
    }
    return pinned + "0";
  }

  method SaltAwayFromPinned(tag: string, inner: string, attrs: string, pinned: string, h: Hasher) returns (r: string)
    ensures r == SaltAway(tag, inner, attrs, pinned, h)
  {
    r := h.aid(tag, inner, attrs);
    if pinned == "" || r != pinned {
      return;
    }
    r := SaltAwayFromPinnedWithHasher(tag + "|" + attrs + "|" + inner, pinned, MAX_SALTS, h.salted);
  }

  // ----- harvesting

  /** The harvested tags, as numbers, each once; `seen` holds where they start. */
  ghost predicate Gathered(o: seq<OpenTag>, elements: seq<nat>, seen: set<nat>) {
    && (forall m :: m in elements ==> m < |o| && o[m].start in seen)
    && (forall s :: s in seen ==> exists m :: m in elements && m < |o| && o[m].start == s)
    && (forall m :: multiset(elements)[m] <= 1)
  }

  predicate StartsAscend(o: seq<OpenTag>) {
    forall j, k :: 0 <= j < k < |o| ==> o[j].start < o[k].start
  }

  lemma FitStartsAscend(x: string, o: seq<OpenTag>)
    requires TagsFit(x, o)
    ensures StartsAscend(o)
  {
    forall j, k | 0 <= j < k < |o| ensures o[j].start < o[k].start {
      assert TagFits(x, o[j]);
    }
  }

  method Harvest(o: seq<OpenTag>, k: nat, elements: seq<nat>, seen: set<nat>) returns (e: seq<nat>, s: set<nat>)
    requires StartsAscend(o) && Gathered(o, elements, seen) && k < |o|
    ensures Gathered(o, e, s) && forall m :: m in e <==> m in elements || m == k
  {
    e, s := elements, seen;
    if o[k].start in seen {
      var m :| m in elements && m < |o| && o[m].start == o[k].start;
      assert m == k;
      return;
    }
    assert k !in elements;
    e, s := elements + [k], seen + {o[k].start};
    assert multiset(e) == multiset(elements) + multiset{k};
    assert multiset(elements)[k] == 0;
    forall t | t in s ensures exists m :: m in e && m < |o| && o[m].start == t {
      if t == o[k].start {
        assert k in e;
      } else {
        var m :| m in elements && m < |o| && o[m].start == t;
        assert m in e;
      }
    }
  }

  method HarvestAt(o: seq<OpenTag>, at: int, elements: seq<nat>, seen: set<nat>) returns (e: seq<nat>, s: set<nat>)
    requires StartsAscend(o) && Gathered(o, elements, seen)
    ensures Gathered(o, e, s) && forall m :: m in e <==> m in elements || (0 <= m < |o| && o[m].start == at)
  {
    e, s := elements, seen;
    for k := 0 to |o|
      invariant e == elements && s == seen && forall m :: 0 <= m < k ==> o[m].start != at
    {
      if o[k].start == at {
        e, s := Harvest(o, k, elements, seen);
        return;
      }
    }
  }

  method HarvestStampableTags(o: seq<OpenTag>, elements: seq<nat>, seen: set<nat>) returns (e: seq<nat>, s: set<nat>)
    requires StartsAscend(o) && Gathered(o, elements, seen)
    ensures Gathered(o, e, s) && forall m :: m in e <==>
            m in elements || (0 <= m < |o| && OneOf(o[m].tag, STAMPABLE_TAGS))
  {
    e, s := elements, seen;
    for k := 0 to |o|
      invariant Gathered(o, e, s) && forall m :: m in e <==>
                m in elements || (0 <= m < k && OneOf(o[m].tag, STAMPABLE_TAGS))
    {
      if OneOf(o[k].tag, STAMPABLE_TAGS) {
        e, s := Harvest(o, k, e, s);
      }
    }
  }

  method HarvestOptInMarkers(o: seq<OpenTag>, optIn: string -> bool, elements: seq<nat>, seen: set<nat>)
    returns (e: seq<nat>, s: set<nat>)
    requires StartsAscend(o) && Gathered(o, elements, seen)
    ensures Gathered(o, e, s) && forall m :: m in e <==> m in elements || (0 <= m < |o| && optIn(o[m].attrs))
  {
    e, s := elements, seen;
    for k := 0 to |o|
      invariant Gathered(o, e, s) && forall m :: m in e <==> m in elements || (0 <= m < k && optIn(o[m].attrs))
    {
      if optIn(o[k].attrs) {
        e, s := Harvest(o, k, e, s);
      }
    }
  }

  // ----- document order

  function StartOf(o: seq<OpenTag>): nat -> int {
    (m: nat) => if m < |o| then o[m].start else 0
  }

  lemma CountTwice(s: seq<nat>, i: nat, j: nat)
    requires i < j < |s| && s[i] == s[j]
    ensures multiset(s)[s[i]] >= 2
  {
    var a, b := s[..j], s[j..];
    assert s == a + b && s[i] in a && s[j] in b;
  }

  /** Sequences that ascend and hold the same numbers are the same. */
  lemma {:induction false} AscendingUnique(a: seq<nat>, b: seq<nat>)
    requires forall i, j :: 0 <= i < j < |a| ==> a[i] < a[j]
    requires forall i, j :: 0 <= i < j < |b| ==> b[i] < b[j]
    requires forall m :: m in a <==> m in b
    ensures a == b
    decreases |a|
  {
    assert b == [] || b[0] in b;
    if a == [] {
    } else {
      var x := a[|a| - 1];
      assert x in a;
      var y := if b == [] then x else b[|b| - 1];
      assert b != [] ==> y in b;
      assert b != [] && x == y;
      var a', b' := a[..|a| - 1], b[..|b| - 1];
      assert forall m :: m in a' <==> m in a && m != x;
      assert forall m :: m in b' <==> m in b && m != x;
      AscendingUnique(a', b');
      assert a == a' + [x] && b == b' + [x];
    }
  }

  lemma SortedAscends(o: seq<OpenTag>, s: seq<nat>)
    requires StartsAscend(o) && StableSort.Sorted(s, StartOf(o))
    requires (forall m :: m in s ==> m < |o|) && (forall m :: multiset(s)[m] <= 1)
    ensures forall i, j :: 0 <= i < j < |s| ==> s[i] < s[j]
  {
    forall i, j | 0 <= i < j < |s| ensures s[i] < s[j] {
      assert s[i] in s && s[j] in s;
      assert StartOf(o)(s[i]) <= StartOf(o)(s[j]);
      if s[i] == s[j] {
        CountTwice(s, i, j);
      }
    }
  }

  lemma SameMembers(a: seq<nat>, b: seq<nat>)
    requires multiset(a) == multiset(b)
    ensures forall m :: m in a <==> m in b
  {
    assert forall m :: m in a <==> m in multiset(a);
    assert forall m :: m in b <==> m in multiset(b);
  }

  /** The stable sort by start puts what was harvested, in whatever passes, in document order. */
  lemma SortIsChosen(p: Plan, elements: seq<nat>, seen: set<nat>, env: Env)
    requires StartsAscend(p.o) && Gathered(p.o, elements, seen)
    requires forall m :: m in elements <==> 0 <= m < |p.o| && Harvested(p, m, env)
    ensures StableSort.Sort(elements, StartOf(p.o)) == Chosen(p, 0, env)
  {
    var s := StableSort.Sort(elements, StartOf(p.o));
    StableSort.SortPermutes(elements, StartOf(p.o));
    StableSort.SortSorted(elements, StartOf(p.o));
    SameMembers(s, elements);
    SortedAscends(p.o, s);
    AscendingUnique(s, Chosen(p, 0, env));
  }

  // ----- writing the stamped document

  function TagText(o: OpenTag, attrs: string): string {
    "<" + o.origTag + attrs + ">"
  }

  lemma TagTextIn(x: string, o: OpenTag, c: nat)
    requires TagFits(x, o) && c <= o.start
    ensures x[c..AttrsAt(o)] == x[c..o.start] + ("<" + o.origTag)
    ensures x[o.openEnd - 1..o.openEnd] == ">"
  {
    assert x[c..AttrsAt(o)] == x[c..o.start] + [x[o.start]] + x[o.start + 1..AttrsAt(o)];
  }

  lemma JoinTag(out: string, front: string, name: string, attrs: string)
    ensures out + (front + ("<" + name)) + attrs + ">" == out + front + ("<" + name + attrs + ">")
  {
  }

  lemma CloseTag(x: string, o: seq<OpenTag>, n: seq<string>, front: string, k: nat) returns (written: string, e: nat)
    requires TagsFit(x, o) && k < |o| && TagFits(x, o[k]) && Written(x, o, n, front, AttrsAt(o[k]), k)
    ensures e == o[k].openEnd && written == front + n[k] + ">" && Copying(x, o, n, written, e, e, k + 1)
  {
    NextFits(x, o, k);
    WriteAttrs(x, o, n, front, k);
    e := o[k].openEnd;
    CopyTo(x, o, n, front + n[k], e - 1, k + 1, e);
    assert x[e - 1..e] == ">";
    written := front + n[k] + ">";
    NothingToCopy(x, o, n, written, e, k + 1);
  }

  /** The loop writes a whole stamped tag. */
  lemma StampTag(x: string, o: seq<OpenTag>, n: seq<string>, out: string, c: nat, i: nat, k: nat)
    returns (written: string, e: nat)
    requires TagsFit(x, o) && k < |o| && Copying(x, o, n, out, c, i, k) && c <= o[k].start
    ensures o[k].start <= e == o[k].openEnd <= |x|
    ensures written == out + x[c..o[k].start] + TagText(o[k], n[k]) && Copying(x, o, n, written, e, e, k + 1)
  {
    NextFits(x, o, k);
    var front := CopyToAttrs(x, o, n, out, c, i, k);
    written, e := CloseTag(x, o, n, front, k);
    TagTextIn(x, o[k], c);
    JoinTag(out, x[c..o[k].start], o[k].origTag, n[k]);
  }

  /** Between two stamped tags the loop copies. */
  lemma {:induction false} PassTags(x: string, o: seq<OpenTag>, n: seq<string>, out: string, c: nat, i: nat, k: nat,
                                    m: nat)
    returns (b: nat)
    requires TagsFit(x, o) && k <= m <= |o| && Copying(x, o, n, out, c, i, k) && forall j :: k <= j < m ==>
             n[j] == o[j].attrs
    ensures Copying(x, o, n, out, c, b, m)
    decreases m - k
  {
    if k == m {
      b := i;
    } else {
      var b1 := PassTag(x, o, n, out, c, i, k);
      b := PassTags(x, o, n, out, c, b1, k + 1, m);
    }
  }

  predicate Ascends(c: seq<nat>) {
    forall k, l :: 0 <= k < l < |c| ==> c[k] < c[l]
  }

  /** The tags `c`, in order, are the ones whose attribute texts change. */
  predicate Changes(o: seq<OpenTag>, n: seq<string>, c: seq<nat>) {
    && |n| == |o| && Ascends(c) && (forall k :: 0 <= k < |c| ==> c[k] < |o|)
    && (forall j {:trigger j in c} :: 0 <= j < |o| && j !in c ==> n[j] == o[j].attrs)
  }

  lemma ChosenChange(p: Plan, env: Env)
    ensures Changes(p.o, NewTexts(p, env), Chosen(p, 0, env))
  {
  }

  /** Tags between two changed ones keep their attribute text. */
  lemma UnchosenKeep(o: seq<OpenTag>, n: seq<string>, c: seq<nat>, i: nat, from: nat, stop: nat)
    requires Changes(o, n, c) && i <= |c| && from == if i == 0 then 0 else c[i - 1] + 1
    requires stop == if i == |c| then |o| else c[i]
    ensures from <= stop <= |o| && forall j :: from <= j < stop ==> n[j] == o[j].attrs
  {
    if i > 0 && i < |c| {
      assert c[i - 1] < c[i];
    }
    forall j | from <= j < stop ensures n[j] == o[j].attrs {
      NotBetween(c, i, j);
    }
  }

  lemma NotBetween(c: seq<nat>, i: nat, j: nat)
    requires i <= |c| && Ascends(c)
    requires (i > 0 ==> c[i - 1] < j) && (i < |c| ==> j < c[i])
    ensures j !in c
  {
    forall k | 0 <= k < |c| ensures c[k] != j {
      assert k < i - 1 ==> c[k] < c[i - 1];
      assert i < k ==> c[i] < c[k];
    }
  }

  method StampOpen(open: OpenTag, aid: string) returns (r: string)
    ensures r == "<" + open.origTag + StampAttrs(Strip(open.attrs), aid, TrueSelfClose(open)) + ">"
  {
    var cleaned := StripAIDAttribute(open.attrs);
    var foreignSelfClose := TerminalSelfCloseSlash(open.attrs);
    var isVoid := open.ns == Html && IsVoid(open.tag);
    var closeEnd := if isVoid || (open.ns != Html && foreignSelfClose >= 0) then open.openEnd else open.closeEnd;
    if isVoid {
      var slash := TerminalSelfCloseSlash(cleaned);
      r := StampedOpenTag(open.origTag, cleaned, aid, slash >= 0);
    } else if open.ns != Html && closeEnd == open.openEnd && foreignSelfClose >= 0 {
      r := StampedOpenTag(open.origTag, cleaned, aid, true);
    } else {
      r := StampedOpenTag(open.origTag, cleaned, aid, false);
    }
  }

  method MakeArtifact(p: Plan, m: nat, env: Env) returns (r: C.Artifact)
    requires m < |p.o|
    ensures r == ArtifactOf(p, m, env)
  {
    var o := p.o[m];
    var cleaned := StripAIDAttribute(o.attrs);
    var aid := p.pinned;
    if p.pinned == "" || o.start != p.at {
      aid := SaltAwayFromPinned(o.tag, Inner(p.y, o), cleaned, p.pinned, env.hasher);
    }
    var legacy := [];
    if o.tag == "iframe" {
      var legacyAid := env.hasher.aid("iframe", "", cleaned);
      if legacyAid != aid {
        legacy := [legacyAid];
      }
    }
    r := C.Artifact(aid, o.tag, env.heading(p.y, o.start), legacy);
  }

  method MakeArtifacts(p: Plan, elements: seq<nat>, env: Env) returns (r: seq<C.Artifact>)
    requires forall i :: 0 <= i < |elements| ==> elements[i] < |p.o|
    ensures |r| == |elements| && forall i :: 0 <= i < |r| ==> r[i] == ArtifactOf(p, elements[i], env)
  {
    r := [];
    for i := 0 to |elements|
      invariant |r| == i && forall j :: 0 <= j < i ==> r[j] == ArtifactOf(p, elements[j], env)
    {
      var a := MakeArtifact(p, elements[i], env);
      r := r + [a];
    }
  }

  /** How many tags lie behind the loop once `i` changed tags do. */
  function Passed(c: seq<nat>, i: nat): nat
    requires i <= |c|
  {
    if i == 0 then 0 else c[i - 1] + 1
  }

  /** The writing loop has written the first `i` changed tags, and stands right behind the last of them. */
  predicate Wrote(x: string, o: seq<OpenTag>, n: seq<string>, c: seq<nat>, i: nat, out: string, cursor: nat)
    requires TagsFit(x, o) && Changes(o, n, c) && i <= |c|
  {
    && cursor == (if i == 0 then 0 else o[c[i - 1]].openEnd)
    && Copying(x, o, n, out, cursor, cursor, Passed(c, i))
  }

  lemma WroteTo(x: string, o: seq<OpenTag>, n: seq<string>, c: seq<nat>, i: nat, out: string, cursor: nat)
    returns (b: nat)
    requires TagsFit(x, o) && Changes(o, n, c) && i <= |c| && Wrote(x, o, n, c, i, out, cursor)
    ensures Copying(x, o, n, out, cursor, b, if i == |c| then |o| else c[i])
  {
    var stop := if i == |c| then |o| else c[i];
    UnchosenKeep(o, n, c, i, Passed(c, i), stop);
    b := PassTags(x, o, n, out, cursor, cursor, Passed(c, i), stop);
  }

  lemma BehindLast(x: string, o: seq<OpenTag>, n: seq<string>, c: seq<nat>, i: nat, out: string, cursor: nat)
    requires TagsFit(x, o) && Changes(o, n, c) && i < |c| && Wrote(x, o, n, c, i, out, cursor)
    ensures cursor <= o[c[i]].start
  {
    if i > 0 {
      assert c[i - 1] < c[i];
    }
  }

  lemma WriteTurn(x: string, o: seq<OpenTag>, n: seq<string>, c: seq<nat>, i: nat, text: string, from: nat)
    returns (out: string, cursor: nat)
    requires TagsFit(x, o) && Changes(o, n, c) && i < |c| && Wrote(x, o, n, c, i, text, from)
    ensures from <= o[c[i]].start <= |x| && cursor == o[c[i]].openEnd
    ensures out == text + x[from..o[c[i]].start] + TagText(o[c[i]], n[c[i]])
    ensures Wrote(x, o, n, c, i + 1, out, cursor)
  {
    var b := WroteTo(x, o, n, c, i, text, from);
    BehindLast(x, o, n, c, i, text, from);
    out, cursor := StampTag(x, o, n, text, from, b, c[i]);
    WroteAfter(x, o, n, c, i, out, cursor);
  }

  lemma WroteAfter(x: string, o: seq<OpenTag>, n: seq<string>, c: seq<nat>, i: nat, out: string, cursor: nat)
    requires TagsFit(x, o) && Changes(o, n, c) && i < |c|
    requires cursor == o[c[i]].openEnd && Copying(x, o, n, out, cursor, cursor, c[i] + 1)
    ensures Wrote(x, o, n, c, i + 1, out, cursor)
  {
  }

  lemma WroteAll(x: string, o: seq<OpenTag>, n: seq<string>, c: seq<nat>, out: string, cursor: nat)
    requires TagsFit(x, o) && Changes(o, n, c) && Wrote(x, o, n, c, |c|, out, cursor)
    ensures cursor <= |x| && out + x[cursor..] == Replaced(x, o, n)
  {
    var b := WroteTo(x, o, n, c, |c|, out, cursor);
    CopyingEnds(x, o, n, out, cursor, b);
  }

  /** The writing loop, with the stamped open tags at hand. */
  method WriteTags(x: string, o: seq<OpenTag>, ghost n: seq<string>, c: seq<nat>, stampedOpens: seq<string>)
    returns (r: string)
    requires TagsFit(x, o) && Changes(o, n, c) && |stampedOpens| == |c|
    requires forall i :: 0 <= i < |c| ==> stampedOpens[i] == TagText(o[c[i]], n[c[i]])
    ensures r == Replaced(x, o, n)
  {
    var out := "";
    var cursor: nat := 0;
    CopyingStarts(x, o, n);
    for i := 0 to |c|
      invariant Wrote(x, o, n, c, i, out, cursor)
    {
      ghost var written, behind := WriteTurn(x, o, n, c, i, out, cursor);
      out := out + x[cursor..o[c[i]].start] + stampedOpens[i];
      cursor := o[c[i]].openEnd;
      assert out == written;
    }
    WroteAll(x, o, n, c, out, cursor);
    r := out + x[cursor..];
  }

  method StampOpens(p: Plan, c: seq<nat>, aids: seq<C.Artifact>, env: Env) returns (r: seq<string>)
    requires |aids| == |c| && forall i :: 0 <= i < |c| ==>
             c[i] < |p.o| && Harvested(p, c[i], env) && aids[i].aid == AidOf(p, c[i], env)
    ensures |r| == |c| && forall i :: 0 <= i < |c| ==> r[i] == TagText(p.o[c[i]], NewAttrs(p, c[i], env))
  {
    r := [];
    for i := 0 to |c|
      invariant |r| == i && forall j :: 0 <= j < i ==> r[j] == TagText(p.o[c[j]], NewAttrs(p, c[j], env))
    {
      var stampedOpen := StampOpen(p.o[c[i]], aids[i].aid);
      r := r + [stampedOpen];
    }
  }

  method WriteStamped(p: Plan, c: seq<nat>, aids: seq<C.Artifact>, env: Env) returns (r: string)
    requires TagsFit(p.y, p.o) && c == Chosen(p, 0, env) && aids == Index(p, env)
    ensures r == Replaced(p.y, p.o, NewTexts(p, env))
  {
    var stampedOpens := StampOpens(p, c, aids, env);
    ChosenChange(p, env);
    r := WriteTags(p.y, p.o, NewTexts(p, env), c, stampedOpens);
  }

  /** The three harvesting passes, the pinned tag first, and the sort into document order. */
  method HarvestAll(p: Plan, env: Env) returns (c: seq<nat>)
    requires StartsAscend(p.o)
    ensures c == Chosen(p, 0, env)
  {
    var elements: seq<nat>, seen: set<nat> := [], {};
    if p.pinned != "" {
      elements, seen := HarvestAt(p.o, p.at, elements, seen);
    }
    elements, seen := HarvestStampableTags(p.o, elements, seen);
    elements, seen := HarvestOptInMarkers(p.o, env.optIn, elements, seen);
    SortIsChosen(p, elements, seen, env);
    c := StableSort.Sort(elements, StartOf(p.o));
  }

  method FindTag(o: seq<OpenTag>, at: int) returns (r: int)
    ensures r == TagAt(o, at, 0)
  {
    for k := 0 to |o|
      invariant TagAt(o, at, 0) == TagAt(o, at, k)
    {
      if o[k].start == at {
        return k;
      }
    }
    r := -1;
  }

  method MakePlan(raw: string, pinned: string, at: int, env: Env) returns (p: Plan)
    ensures p == PlanOf(raw, pinned, at, env)
  {
    var pinnedOrdinal := -1;
    if pinned != "" && at >= 0 {
      var opens, _ := ScanOpenTags(raw, env.enc);
      pinnedOrdinal := FindTag(opens, at);
    }
    var y := StripAllAIDs(raw, env.enc);
    var o, _ := ScanOpenTags(y, env.enc);
    var pinnedOffset := at;
    if 0 <= pinnedOrdinal < |o| {
      pinnedOffset := o[pinnedOrdinal].start;
    }
    var hit := FindTag(o, pinnedOffset);
    p := Plan(y, o, if pinnedOffset >= 0 && hit >= 0 then pinned else "", pinnedOffset);
  }

  /** stampAids: the stamped document and its artifact index. */
  method StampAids(raw: string, pinned: string, at: int, env: Env) returns (html: string, aids: seq<C.Artifact>)
    ensures StampResult(html, aids) == Stamp(raw, pinned, at, env)
  {
    var p := MakePlan(raw, pinned, at, env);
    ScannedTagsFit(p.y, env.enc);
    FitStartsAscend(p.y, p.o);
    var c := HarvestAll(p, env);
    aids := MakeArtifacts(p, c, env);
    assert aids == Index(p, env);
    html := WriteStamped(p, c, aids, env);
  }
}

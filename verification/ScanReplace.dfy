/** Replacing the attribute texts of a document's open tags, and the scan of the result.
    The scans of the old and of the new document are run side by side. Between tags both take the same turns, because
    a turn reads no further than the next tag (ScanLocal); at a tag both add a tag that differs in its position and
    attribute text only (ScanTwin). `Sync` is what holds of both scans at every turn: the stacks are the same, the tags
    found so far are twins, those of the new document stand where the replacements put them, and so does the position
    reached. The replacements are valid when no new text changes anything the scanner looks at.
    ReplacedScan, at the end, is what the stamper's theorems use. */
module ScanReplace {
  import opened TagSyntax
  import opened AttrText
  import opened TagMachine
  import opened Scanner
  import opened ScanLocal
  import opened ScanEdit
  import opened ScanTwin

  /** The attribute text `n` in place of that of `o` changes nothing the scanner looks at. */
  predicate Replaces(o: OpenTag, n: string, enc: HtmlEncoding) {
    && IsAttrsText(n)
    && (o.ns != Html ==> (SelfCloses(n) <==> SelfCloses(o.attrs)))
    && (ForeignBreakout(o.tag, n) <==> ForeignBreakout(o.tag, o.attrs))
    && (AnnotationHtml(o.tag, o.ns, n, enc) <==> AnnotationHtml(o.tag, o.ns, o.attrs, enc))
  }

  /** The text of `x` from `i` on, the attribute text of every tag from `k` on replaced by the one in `n`. */
  function Tail(x: string, o: seq<OpenTag>, n: seq<string>, i: nat, k: nat): string
    requires TagsFit(x, o) && |n| == |o| && k <= |o| && i <= |x| && (k < |o| ==> i <= AttrsAt(o[k]))
    decreases |o| - k
  {
    if k == |o| then x[i..]
    else
      assert TagFits(x, o[k]);
      x[i..AttrsAt(o[k])] + n[k] + Tail(x, o, n, o[k].openEnd - 1, k + 1)
  }

  function Replaced(x: string, o: seq<OpenTag>, n: seq<string>): string
    requires TagsFit(x, o) && |n| == |o|
  {
    Tail(x, o, n, 0, 0)
  }

  /** How much the first `k` replacements lengthen the text. */
  function Shift(o: seq<OpenTag>, n: seq<string>, k: nat): int
    requires k <= |o| == |n|
  {
    if k == 0 then 0 else Shift(o, n, k - 1) + |n[k - 1]| - |o[k - 1].attrs|
  }

  /** The text `y` is `x` with the attribute texts of its tags `o` replaced by `n`. */
  datatype Edit = Edit(x: string, y: string, o: seq<OpenTag>, n: seq<string>)

  predicate Valid(e: Edit, enc: HtmlEncoding) {
    && TagsFit(e.x, e.o) && |e.n| == |e.o|
    && (forall k :: 0 <= k < |e.o| ==> Replaces(e.o[k], e.n[k], enc))
    && e.y == Replaced(e.x, e.o, e.n)
  }

  predicate Fine(e: Edit) {
    TagsFit(e.x, e.o) && |e.n| == |e.o|
  }

  /** Position `i` of `x` stands for `i'` of `y`, behind `k` tags. */
  predicate Stands(e: Edit, i: nat, i': nat, k: nat)
    requires Fine(e)
  {
    && k <= |e.o| && i <= |e.x| && i' <= |e.y| && (k < |e.o| ==> i <= e.o[k].start)
    && i' == i + Shift(e.o, e.n, k) && e.y[i'..] == Tail(e.x, e.o, e.n, i, k)
  }

  // ----- moving along

  lemma DropFront(x: string, i: nat, a: nat, m: nat, more: string)
    requires i + m <= a <= |x|
    ensures (x[i..a] + more)[m..] == x[i + m..a] + more && (x[i..a] + more)[..m] == x[i..i + m]
  {
  }

  lemma TailIs(x: string, o: seq<OpenTag>, n: seq<string>, i: nat, k: nat, more: string)
    requires TagsFit(x, o) && |n| == |o| && k < |o| && TagFits(x, o[k]) && i <= AttrsAt(o[k]) && i <= |x|
    requires more == n[k] + Tail(x, o, n, o[k].openEnd - 1, k + 1)
    ensures Tail(x, o, n, i, k) == x[i..AttrsAt(o[k])] + more
  {
  }

  lemma TailDrop(x: string, o: seq<OpenTag>, n: seq<string>, i: nat, k: nat, m: nat)
    requires TagsFit(x, o) && |n| == |o| && k <= |o| && i + m <= |x| && (k < |o| ==> i + m <= AttrsAt(o[k]))
    ensures m <= |Tail(x, o, n, i, k)|
    ensures Tail(x, o, n, i, k)[m..] == Tail(x, o, n, i + m, k)
    ensures Tail(x, o, n, i, k)[..m] == x[i..i + m]
  {
    if k < |o| {
      assert TagFits(x, o[k]);
      var more := n[k] + Tail(x, o, n, o[k].openEnd - 1, k + 1);
      TailIs(x, o, n, i, k, more);
      TailIs(x, o, n, i + m, k, more);
      DropFront(x, i, AttrsAt(o[k]), m, more);
    }
  }

  lemma StandsOn(e: Edit, i: nat, i': nat, k: nat, m: nat)
    requires Fine(e) && Stands(e, i, i', k) && i + m <= |e.x| && (k < |e.o| ==> i + m <= e.o[k].start)
    ensures Stands(e, i + m, i' + m, k)
    ensures e.y[i'..i' + m] == e.x[i..i + m]
  {
    TailDrop(e.x, e.o, e.n, i, k, m);
    assert e.y[i' + m..] == e.y[i'..][m..];
    assert e.y[i'..i' + m] == e.y[i'..][..m];
  }

  /** How far the texts agree: to the end, or up to and with the `<` of the next tag. */
  function Room(e: Edit, i: nat, k: nat): nat
    requires Fine(e) && k <= |e.o| && i <= |e.x| && (k < |e.o| ==> i <= e.o[k].start)
  {
    if k < |e.o| then e.o[k].start - i else |e.x| - i
  }

  lemma StandsAlike(e: Edit, i: nat, i': nat, k: nat)
    requires Fine(e) && Stands(e, i, i', k)
    ensures Alike(e.x[i..], e.y[i'..], Room(e, i, k))
  {
    if k < |e.o| {
      assert TagFits(e.x, e.o[k]);
      var r := Room(e, i, k);
      TailDrop(e.x, e.o, e.n, i, k, r + 1);
      assert e.x[i..][r] == e.x[e.o[k].start];
      assert e.x[i..][..r + 1] == e.x[i..i + r + 1];
    }
  }

  /** The `k`th tag in `y`, from `i'` on. */
  function Moved(e: Edit, k: nat, i': nat): OpenTag
    requires Fine(e) && k < |e.o|
  {
    var o := e.o[k];
    o.(start := i', openEnd := i' + 1 + |o.origTag| + |e.n[k]| + 1, attrs := e.n[k])
  }

  lemma Pieces(y: string, i: nat, p: string, q: string, more: string)
    requires i <= |y| && y[i..] == p + q + more
    ensures i + |p| + |q| <= |y| && y[i..i + |p|] == p && y[i + |p|..i + |p| + |q|] == q && y[i + |p| + |q|..] == more
  {
    assert y[i..][..|p|] == p;
    assert y[i..][|p|..|p| + |q|] == q;
    assert y[i..][|p| + |q|..] == more;
  }

  lemma NamePiece(x: string, o: OpenTag) returns (p: string)
    requires TagFits(x, o)
    ensures p == x[o.start..AttrsAt(o)] && |p| == 1 + |o.origTag| && p[0] == '<' && p[1..] == o.origTag
  {
    p := x[o.start..AttrsAt(o)];
    assert p[1..] == x[o.start + 1..AttrsAt(o)];
  }

  lemma PieceAt(y: string, i: nat, p: string, name: string)
    requires i + |p| <= |y| && y[i..i + |p|] == p && p != "" && p[0] == '<' && p[1..] == name
    ensures y[i] == '<' && y[i + 1..i + |p|] == name
  {
    assert y[i..i + |p|][0] == y[i] && y[i..i + |p|][1..] == y[i + 1..i + |p|];
  }

  /** The pieces of `y` at a tag: the `<` and the name, the new attribute text, and what follows. */
  lemma TagPieces(e: Edit, i: nat, i': nat, k: nat) returns (c: nat, j: nat)
    requires Fine(e) && Stands(e, i, i', k) && k < |e.o| && i == e.o[k].start && TagFits(e.x, e.o[k])
    ensures c == i' + 1 + |e.o[k].origTag| && j == c + |e.n[k]| < |e.y|
    ensures e.y[i'] == '<' && e.y[i' + 1..c] == e.o[k].origTag && e.y[c..j] == e.n[k]
    ensures e.y[j..] == Tail(e.x, e.o, e.n, e.o[k].openEnd - 1, k + 1)
  {
    var o, n := e.o[k], e.n[k];
    var p, more := TagAndMore(e, i, i', k);
    Pieces(e.y, i', p, n, more);
    c, j := i' + |p|, i' + |p| + |n|;
    PieceAt(e.y, i', p, o.origTag);
  }

  lemma TagAndMore(e: Edit, i: nat, i': nat, k: nat) returns (p: string, more: string)
    requires Fine(e) && Stands(e, i, i', k) && k < |e.o| && i == e.o[k].start && TagFits(e.x, e.o[k])
    ensures |p| == 1 + |e.o[k].origTag| && p[0] == '<' && p[1..] == e.o[k].origTag && |more| > 0
    ensures more == Tail(e.x, e.o, e.n, e.o[k].openEnd - 1, k + 1) && e.y[i'..] == p + e.n[k] + more
  {
    p := NamePiece(e.x, e.o[k]);
    more := Tail(e.x, e.o, e.n, e.o[k].openEnd - 1, k + 1);
    TailIs(e.x, e.o, e.n, i, k, e.n[k] + more);
    Together(p, e.n[k], more);
    TailDrop(e.x, e.o, e.n, e.o[k].openEnd - 1, k + 1, 1);
  }

  lemma Together(p: string, q: string, r: string)
    ensures p + (q + r) == p + q + r
  {
  }

  lemma BehindTag(e: Edit, k: nat, j: nat)
    requires Fine(e) && k < |e.o| && TagFits(e.x, e.o[k]) && j < |e.y| &&
             e.y[j..] == Tail(e.x, e.o, e.n, e.o[k].openEnd - 1, k + 1)
    ensures e.y[j] == '>' && e.y[j + 1..] == Tail(e.x, e.o, e.n, e.o[k].openEnd, k + 1)
  {
    var end := e.o[k].openEnd;
    TailDrop(e.x, e.o, e.n, end - 1, k + 1, 1);
    var more := Tail(e.x, e.o, e.n, end - 1, k + 1);
    assert more[..1][0] == e.x[end - 1..end][0];
    assert e.y[j] == e.y[j..][0];
    assert e.y[j + 1..] == e.y[j..][1..];
  }

  lemma MovedFits(e: Edit, i: nat, i': nat, k: nat)
    requires Fine(e) && Stands(e, i, i', k) && k < |e.o| && i == e.o[k].start && IsAttrsText(e.n[k])
    ensures TagFits(e.y, Moved(e, k, i'))
  {
    assert TagFits(e.x, e.o[k]);
    var c, j := TagPieces(e, i, i', k);
    BehindTag(e, k, j);
  }

  lemma StandsBehindTag(e: Edit, i: nat, i': nat, k: nat)
    requires Fine(e) && Stands(e, i, i', k) && k < |e.o| && i == e.o[k].start
    ensures Stands(e, e.o[k].openEnd, Moved(e, k, i').openEnd, k + 1)
  {
    assert TagFits(e.x, e.o[k]);
    var c, j := TagPieces(e, i, i', k);
    BehindTag(e, k, j);
  }

  // ----- both scans, turn by turn

  /** The tag `p`, number `j` in `y`, lies where the replacements put it. */
  predicate PlacedAt(e: Edit, p: OpenTag, j: nat)
    requires Fine(e) && j < |e.o|
  {
    && p.start == e.o[j].start + Shift(e.o, e.n, j)
    && p.openEnd == e.o[j].openEnd + Shift(e.o, e.n, j + 1)
    && p.attrs == e.n[j]
  }

  predicate Placements(e: Edit, p: seq<OpenTag>)
    requires Fine(e)
  {
    |p| <= |e.o| && forall j {:trigger PlacedAt(e, p[j], j)} :: 0 <= j < |p| ==> PlacedAt(e, p[j], j)
  }

  predicate Sync(e: Edit, st: Scan, st': Scan)
    requires Fine(e)
  {
    && SameHeads(st.opens, e.o) && Stands(e, st.i, st'.i, |st.opens|)
    && Mirror(st, st', Shift(e.o, e.n, |st.opens|)) && Placements(e, st'.opens)
  }

  lemma HeadSays(a: OpenTag, b: OpenTag)
    requires Head(a) == Head(b)
    ensures a.start == b.start && a.openEnd == b.openEnd && a.ns == b.ns && a.attrs == b.attrs
  {
    assert Head(a).start == a.start && Head(a).openEnd == a.openEnd && Head(a).ns == a.ns && Head(a).attrs == a.attrs;
  }

  lemma PlacedSame(e: Edit, a: OpenTag, b: OpenTag, j: nat)
    requires Fine(e) && j < |e.o| && PlacedAt(e, a, j) && Head(a) == Head(b)
    ensures PlacedAt(e, b, j)
  {
    HeadSays(a, b);
  }

  lemma PlacementsKeep(e: Edit, p: seq<OpenTag>, q: seq<OpenTag>)
    requires Fine(e) && Placements(e, p) && SameHeads(p, q) && |q| == |p|
    ensures Placements(e, q)
  {
    forall j | 0 <= j < |q| ensures PlacedAt(e, q[j], j) {
      PlacedSame(e, p[j], q[j], j);
    }
  }

  lemma NamesInText(e: Edit, o: seq<OpenTag>)
    requires Fine(e) && SameHeads(o, e.o)
    ensures NamesAreText(o)
  {
    forall k | 0 <= k < |o| ensures IsTagText(o[k].tag) {
      assert Head(o[k]).tag == Head(e.o[k]).tag == e.o[k].tag;
      assert TagFits(e.x, e.o[k]);
      LowerName(e.o[k].origTag);
    }
  }

  /** At a `<`, Step is StepAt. */
  lemma StepHere(x: string, st: Scan, enc: HtmlEncoding)
    requires st.i < |x| && x[st.i] == '<' && ValidStack(st.opens, st.stack)
    ensures Step(x, st, enc) == StepAt(x, st, st.i, x[st.i..], enc)
  {
  }

  /** What the rest of the scan says about the turn at `st`: `e.o` are the tags it ends with. */
  predicate Foreseen(e: Edit, st: Scan, enc: HtmlEncoding)
    requires Fine(e) && st.i < |e.x| && ValidStack(st.opens, st.stack)
  {
    var r := Step(e.x, st, enc);
    SameHeads(r.opens, e.o) && Ahead(e.x, e.o, |r.opens|, r.i)
  }

  lemma AheadStart(e: Edit, k: nat, i: nat)
    requires Fine(e) && k < |e.o| && Ahead(e.x, e.o, k, i)
    ensures i <= e.o[k].start
  {
  }

  lemma SameStarts(o: seq<OpenTag>, p: seq<OpenTag>)
    requires SameHeads(o, p)
    ensures forall k :: 0 <= k < |o| ==> o[k].start == p[k].start && o[k].openEnd == p[k].openEnd && o[k].ns == p[k].ns
  {
    forall k | 0 <= k < |o|
      ensures o[k].start == p[k].start && o[k].openEnd == p[k].openEnd && o[k].ns == p[k].ns
    {
      assert Head(o[k]) == Head(p[k]);
      assert Head(o[k]).start == o[k].start && Head(o[k]).openEnd == o[k].openEnd && Head(o[k]).ns == o[k].ns;
    }
  }

  lemma NoTagHere(e: Edit, st: Scan, enc: HtmlEncoding)
    requires Fine(e) && st.i < |e.x| && e.x[st.i] == '<' && ValidStack(st.opens, st.stack)
    requires |st.opens| <= |e.o| && (|st.opens| < |e.o| ==> st.i < e.o[|st.opens|].start) && Foreseen(e, st, enc)
    ensures
      var r := StepAt(e.x, st, st.i, e.x[st.i..], enc);
      |r.opens| == |st.opens| && (|st.opens| < |e.o| ==> r.i <= e.o[|st.opens|].start)
  {
    var k := |st.opens|;
    StepHere(e.x, st, enc);
    StepKeeps(e.x, st, enc);
    StepAtTag(e.x, st, st.i, e.x[st.i..], enc);
    var r := StepAt(e.x, st, st.i, e.x[st.i..], enc);
    SameStarts(r.opens, e.o);
    if k < |e.o| {
      AheadStart(e, k, r.i);
    }
  }

  lemma StandsTo(e: Edit, i: nat, i': nat, k: nat, j: nat, j': nat)
    requires Fine(e) && Stands(e, i, i', k) && i <= j <= |e.x| && (k < |e.o| ==> j <= e.o[k].start) && j' - j == i' - i
    ensures Stands(e, j, j', k)
  {
    StandsOn(e, i, i', k, j - i);
  }

  lemma SyncAfter(e: Edit, st: Scan, st': Scan, q: Scan, q': Scan)
    requires Fine(e) && Sync(e, st, st') && |q.opens| == |st.opens| && st.i <= q.i <= |e.x|
    requires Mirror(q, q', Shift(e.o, e.n, |st.opens|)) && SameHeads(q.opens, e.o) && SameHeads(st'.opens, q'.opens)
    requires |st.opens| < |e.o| ==> q.i <= e.o[|st.opens|].start
    ensures Sync(e, q, q')
  {
    StandsTo(e, st.i, st'.i, |st.opens|, q.i, q'.i);
    PlacementsKeep(e, st'.opens, q'.opens);
  }

  lemma SyncAtTwinLt(e: Edit, st: Scan, st': Scan)
    requires Fine(e) && Sync(e, st, st') && st.i < |e.x| && e.x[st.i] == '<'
    requires |st.opens| < |e.o| ==> st.i < e.o[|st.opens|].start
    ensures st'.i < |e.y| && e.y[st'.i] == '<'
    ensures
      AtTwinLt(st, st', Shift(e.o, e.n, |st.opens|), e.x[st.i..], e.y[st'.i..], Room(e, st.i, |st.opens|))
  {
    var k := |st.opens|;
    StandsAlike(e, st.i, st'.i, k);
    AlikeChars(e.x[st.i..], e.y[st'.i..], Room(e, st.i, k));
    assert e.x[st.i..][0] == e.y[st'.i..][0];
    NamesInText(e, st.opens);
  }

  /** A turn at a `<` that opens no tag. */
  lemma PlainTurn(e: Edit, st: Scan, st': Scan, enc: HtmlEncoding)
    requires Fine(e) && Sync(e, st, st') && st.i < |e.x| && e.x[st.i] == '<' && Foreseen(e, st, enc)
    requires |st.opens| < |e.o| ==> st.i < e.o[|st.opens|].start
    ensures st'.i < |e.y| && Sync(e, Step(e.x, st, enc), Step(e.y, st', enc))
  {
    var k := |st.opens|;
    SyncAtTwinLt(e, st, st');
    NoTagHere(e, st, enc);
    var q, q' := PlainStepLike(e.x, e.y, st, st', Shift(e.o, e.n, k), Room(e, st.i, k), enc);
    StepHere(e.x, st, enc);
    StepHere(e.y, st', enc);
    StepKeeps(e.y, st', enc);
    SyncAfter(e, st, st', q, q');
  }

  // ----- a turn at a tag

  lemma ProbeTag(x: string, o: OpenTag)
    requires TagFits(x, o)
    ensures Probe(x[o.start..]) == Found(1 + |o.origTag|) && CommentLen(x[o.start..]).Absent?
    ensures var t := x[o.start..]; |t| > 1 && t[1] != '/' && t[1] != '!' && t[1] != '?'
  {
    var t, ne := x[o.start..], 1 + |o.origTag|;
    forall j | 1 <= j < ne ensures t[j] == o.origTag[j - 1] {
      assert t[j] == x[o.start + 1..AttrsAt(o)][j - 1];
    }
    assert t[ne] == if o.attrs == "" then '>' else o.attrs[0] by {
      if o.attrs != "" { assert x[AttrsAt(o)..o.openEnd - 1][0] == t[ne]; }
    }
    NameEndIs(t, 2, ne);
  }

  lemma ReadTag(x: string, o: OpenTag)
    requires TagFits(x, o)
    ensures Read(x, o.start + 1, TagName).Exit? && Read(x, o.start + 1, TagName).end == o.openEnd
  {
    NameKeepsTagName(o.origTag);
    ReadOver(x, o.start + 1, AttrsAt(o), TagName, TagName);
    FedRead(x, AttrsAt(o), o.openEnd - 1, TagName);
  }

  lemma StepOpens(x: string, st: Scan, lt: nat, t: string, ne: nat, end: nat, enc: HtmlEncoding, r: Scan)
    requires st.i == lt < |x| && t == x[lt..] && t[0] == '<' && ValidStack(st.opens, st.stack)
    requires CommentLen(t).Absent? && |t| > 1 && t[1] != '/' && t[1] != '!' && t[1] != '?' && Probe(t) == Found(ne)
    requires Read(x, lt + 1, TagName).Exit? && Read(x, lt + 1, TagName).end == end <= |x| && 2 <= ne && lt + ne < end
    requires r == OpenStep(x, st, lt, ne, end, enc)
    ensures StepAt(x, st, lt, t, enc) == r
  {
  }

  /** A turn at a tag opens it. */
  lemma TagStepIs(x: string, st: Scan, o: OpenTag, enc: HtmlEncoding)
    requires TagFits(x, o) && st.i == o.start && ValidStack(st.opens, st.stack)
    ensures Step(x, st, enc) == OpenStep(x, st, o.start, 1 + |o.origTag|, o.openEnd, enc)
  {
    ProbeTag(x, o);
    ReadTag(x, o);
    StepHere(x, st, enc);
    StepOpens(x, st, o.start, x[o.start..], 1 + |o.origTag|, o.openEnd, enc,
              OpenStep(x, st, o.start, 1 + |o.origTag|, o.openEnd, enc));
  }

  lemma LandingIs(x: string, st: Scan, o: OpenTag, enc: HtmlEncoding) returns (open: OpenTag, st1: Scan)
    requires TagFits(x, o) && st.i == o.start && ValidStack(st.opens, st.stack)
    ensures st1 == st.(opens := Placed(st, o.tag, o.attrs).1) && open.openEnd <= |x|
    ensures Step(x, st, enc) == Entered(x, st1, open)
    ensures
      && open.start == o.start && open.openEnd == open.closeStart == open.closeEnd == o.openEnd
      && open.tag == o.tag && open.origTag == o.origTag && open.attrs == o.attrs &&
         open.ns == Placed(st, o.tag, o.attrs).0
      && open.annotationHtml == AnnotationHtml(o.tag, open.ns, o.attrs, enc) && !open.foreignPopped
  {
    TagStepIs(x, st, o, enc);
    open, st1 := LandingOf(x, st, o, enc);
    OpenStepIs(x, st, o.start, 1 + |o.origTag|, o.openEnd, enc, st1, open);
  }

  lemma OpenStepIs(x: string, st: Scan, lt: nat, ne: nat, openEnd: nat, enc: HtmlEncoding, st1: Scan, open: OpenTag)
    requires ValidStack(st.opens, st.stack) && 2 <= ne && lt + ne < openEnd <= |x|
    requires Landing(x, st, lt, ne, openEnd, enc) == (st1, open)
    ensures ValidStack(st1.opens, st1.stack) && open.openEnd <= |x| &&
            OpenStep(x, st, lt, ne, openEnd, enc) == Entered(x, st1, open)
  {
  }

  lemma LandingOf(x: string, st: Scan, o: OpenTag, enc: HtmlEncoding) returns (open: OpenTag, st1: Scan)
    requires TagFits(x, o) && st.i == o.start && ValidStack(st.opens, st.stack)
    ensures st1 == st.(opens := Placed(st, o.tag, o.attrs).1) && open.openEnd <= |x|
    ensures Landing(x, st, o.start, 1 + |o.origTag|, o.openEnd, enc) == (st1, open)
    ensures
      && open.start == o.start && open.openEnd == open.closeStart == open.closeEnd == o.openEnd
      && open.tag == o.tag && open.origTag == o.origTag && open.attrs == o.attrs &&
         open.ns == Placed(st, o.tag, o.attrs).0
      && open.annotationHtml == AnnotationHtml(o.tag, open.ns, o.attrs, enc) && !open.foreignPopped
  {
    var placed := Placed(st, o.tag, o.attrs);
    open := NewTagOf(x, o, placed.0, enc);
    st1 := Scan(st.i, placed.1, st.stack);
  }

  lemma TagSlices(x: string, o: OpenTag, a: nat, e: nat)
    requires TagFits(x, o) && a == o.start + (1 + |o.origTag|) && e == o.openEnd - 1
    ensures x[o.start + 1..a] == o.origTag && x[a..e] == o.attrs
  {
  }

  lemma NewTagOf(x: string, o: OpenTag, ns: Namespace, enc: HtmlEncoding) returns (open: OpenTag)
    requires TagFits(x, o)
    ensures open == NewTag(x, o.start, 1 + |o.origTag|, o.openEnd, ns, enc)
    ensures
      && open.start == o.start && open.openEnd == open.closeStart == open.closeEnd == o.openEnd
      && open.tag == o.tag && open.origTag == o.origTag && open.attrs == o.attrs && open.ns == ns
      && open.annotationHtml == AnnotationHtml(o.tag, ns, o.attrs, enc) && !open.foreignPopped
  {
    TagSlices(x, o, o.start + (1 + |o.origTag|), o.openEnd - 1);
    open := NewTag(x, o.start, 1 + |o.origTag|, o.openEnd, ns, enc);
  }

  /** The tag added last. */
  lemma EnteredHead(x: string, st: Scan, open: OpenTag)
    requires ValidStack(st.opens, st.stack) && open.openEnd <= |x|
    ensures var r := Entered(x, st, open).opens; |r| == |st.opens| + 1 && Head(r[|st.opens|]) == Head(open)
  {
  }

  lemma LandingHead(x: string, st: Scan, st1: Scan, open: OpenTag, enc: HtmlEncoding)
    requires st.i < |x| && ValidStack(st.opens, st.stack) && ValidStack(st1.opens, st1.stack) &&
             |st1.opens| == |st.opens|
    requires open.openEnd <= |x| && Step(x, st, enc) == Entered(x, st1, open)
    ensures var r := Step(x, st, enc).opens; |r| == |st.opens| + 1 && Head(r[|st.opens|]) == Head(open)
  {
    EnteredHead(x, st1, open);
  }

  /** The two new tags are twins. */
  lemma LandingLike(e: Edit, st: Scan, st': Scan, a: OpenTag, b: OpenTag, st1: Scan, st1': Scan, d: int,
                    enc: HtmlEncoding)
    requires Valid(e, enc) && Mirror(st, st', d) && |st.opens| < |e.o|
    requires
      var o, n := e.o[|st.opens|], e.n[|st.opens|];
      && st1 == st.(opens := Placed(st, o.tag, o.attrs).1) && st1' == st'.(opens := Placed(st', o.tag, n).1)
      && a.tag == b.tag == o.tag && a.origTag == b.origTag && a.attrs == o.attrs && b.attrs == n
      && a.ns == Placed(st, o.tag, o.attrs).0 && b.ns == Placed(st', o.tag, n).0 && a.ns == o.ns
      && a.annotationHtml == AnnotationHtml(o.tag, a.ns, o.attrs, enc) &&
         b.annotationHtml == AnnotationHtml(o.tag, b.ns, n, enc)
      && !a.foreignPopped && !b.foreignPopped
    ensures Twins(st1.opens, st1'.opens) && Twin(a, b)
    ensures StaysOpen(a.tag, a.ns, a.attrs) <==> StaysOpen(b.tag, b.ns, b.attrs)
  {
    var o, n := e.o[|st.opens|], e.n[|st.opens|];
    assert Replaces(o, n, enc);
    PlacedLike(st, st', d, o.tag, o.attrs, n);
  }

  lemma MovedEnd(e: Edit, k: nat, i': nat)
    requires Fine(e) && k < |e.o| && i' == e.o[k].start + Shift(e.o, e.n, k)
    ensures Moved(e, k, i').openEnd == e.o[k].openEnd + Shift(e.o, e.n, k + 1)
  {
    assert TagFits(e.x, e.o[k]);
  }

  lemma PlacementsPush(e: Edit, p: seq<OpenTag>, q: seq<OpenTag>, k: nat)
    requires Fine(e) && Placements(e, p) && SameHeads(p, q) && k == |p| && |q| == k + 1 <= |e.o| && PlacedAt(e, q[k], k)
    ensures Placements(e, q)
  {
    forall j | 0 <= j < |q| ensures PlacedAt(e, q[j], j) {
      if j < k {
        PlacedSame(e, p[j], q[j], j);
      }
    }
  }

  lemma SyncBehind(e: Edit, st: Scan, st': Scan, q: Scan, q': Scan, i: nat, i': nat)
    requires Fine(e) && Sync(e, st, st') && |q.opens| == |st.opens| + 1 && SameHeads(q.opens, e.o) && i <= q.i <= |e.x|
    requires Stands(e, i, i', |q.opens|) && Mirror(q, q', i' - i) && Placements(e, q'.opens)
    requires |q.opens| < |e.o| ==> q.i <= e.o[|q.opens|].start
    ensures Sync(e, q, q')
  {
    StandsTo(e, i, i', |q.opens|, q.i, q'.i);
  }

  lemma RoomBehind(e: Edit, q: Scan, k: nat, i: nat)
    requires Fine(e) && k <= |e.o| && i <= q.i <= |e.x| && k == |q.opens| && Ahead(e.x, e.o, k, q.i)
    ensures k < |e.o| ==> q.i <= e.o[k].start
    ensures (k < |e.o| ==> i <= e.o[k].start) && q.i <= i + Room(e, i, k)
  {
    if k < |e.o| {
      AheadStart(e, k, q.i);
    }
  }

  lemma ForeseenNs(e: Edit, st: Scan, q: Scan, a: OpenTag, enc: HtmlEncoding)
    requires Fine(e) && st.i < |e.x| && ValidStack(st.opens, st.stack) && Foreseen(e, st, enc) &&
             q == Step(e.x, st, enc)
    requires |q.opens| == |st.opens| + 1 && Head(q.opens[|st.opens|]) == Head(a)
    ensures |st.opens| < |e.o| && a.ns == e.o[|st.opens|].ns
  {
    HeadSays(q.opens[|st.opens|], a);
    HeadSays(q.opens[|st.opens|], e.o[|st.opens|]);
  }

  /** The new tags of both scans, and the scans in front of them. */
  lemma TagLandings(e: Edit, st: Scan, st': Scan, k: nat, o: OpenTag, m: OpenTag, enc: HtmlEncoding)
    returns (a: OpenTag, b: OpenTag, st1: Scan, st1': Scan)
    requires Valid(e, enc) && Sync(e, st, st') && st.i < |e.x| && Foreseen(e, st, enc)
    requires k == |st.opens| < |e.o| && st.i == e.o[k].start && o == e.o[k] && m == Moved(e, k, st'.i)
    requires TagFits(e.x, o) && TagFits(e.y, m)
    ensures ValidStack(st1.opens, st1.stack) && ValidStack(st1'.opens, st1'.stack) && st1.stack == st1'.stack
    ensures |st1.opens| == |st1'.opens| == k && Twins(st1.opens, st1'.opens) && Twin(a, b) && IsTagText(a.tag)
    ensures a.openEnd == o.openEnd <= |e.x| && b.start == m.start && b.openEnd == m.openEnd <= |e.y| &&
            b.attrs == m.attrs
    ensures StaysOpen(a.tag, a.ns, a.attrs) <==> StaysOpen(b.tag, b.ns, b.attrs)
    ensures st'.i < |e.y| && Step(e.x, st, enc) == Entered(e.x, st1, a) && Step(e.y, st', enc) == Entered(e.y, st1', b)
  {
    a, st1 := LandingIs(e.x, st, o, enc);
    b, st1' := LandingIs(e.y, st', m, enc);
    LandingHead(e.x, st, st1, a, enc);
    ForeseenNs(e, st, Step(e.x, st, enc), a, enc);
    LandingLike(e, st, st', a, b, st1, st1', Shift(e.o, e.n, k), enc);
    LowerName(o.origTag);
  }

  /** At the next tag both scans add it, and go on alike. */
  lemma TagMirror(e: Edit, st: Scan, st': Scan, k: nat, o: OpenTag, m: OpenTag, enc: HtmlEncoding)
    returns (q: Scan, q': Scan)
    requires Valid(e, enc) && Sync(e, st, st') && st.i < |e.x| && Foreseen(e, st, enc)
    requires k == |st.opens| < |e.o| && st.i == e.o[k].start && o == e.o[k] && m == Moved(e, k, st'.i)
    requires TagFits(e.x, o) && TagFits(e.y, m) && Stands(e, o.openEnd, m.openEnd, k + 1)
    ensures q == Step(e.x, st, enc) && q' == Step(e.y, st', enc) && Mirror(q, q', m.openEnd - o.openEnd)
    ensures |q.opens| == k + 1 && o.openEnd <= q.i
    ensures q'.opens[k].start == m.start && q'.opens[k].openEnd == m.openEnd && q'.opens[k].attrs == m.attrs
  {
    var a, b, st1, st1' := TagLandings(e, st, st', k, o, m, enc);
    q, q' := Step(e.x, st, enc), Step(e.y, st', enc);
    LandingHead(e.x, st, st1, a, enc);
    LandingHead(e.y, st', st1', b, enc);
    HeadSays(q'.opens[k], b);
    RoomBehind(e, q, k + 1, o.openEnd);
    StandsAlike(e, o.openEnd, m.openEnd, k + 1);
    q, q' := EnteredLike(e.x, e.y, st1, st1', a, b, m.openEnd - o.openEnd, Room(e, o.openEnd, k + 1));
  }

  /** A turn at the next tag. */
  lemma TagTurn(e: Edit, st: Scan, st': Scan, enc: HtmlEncoding)
    requires Valid(e, enc) && Sync(e, st, st') && st.i < |e.x| && Foreseen(e, st, enc)
    requires |st.opens| < |e.o| && st.i == e.o[|st.opens|].start
    ensures st'.i < |e.y| && Sync(e, Step(e.x, st, enc), Step(e.y, st', enc))
  {
    var k := |st.opens|;
    var o, m := e.o[k], Moved(e, k, st'.i);
    assert TagFits(e.x, o) && Replaces(o, e.n[k], enc);
    MovedFits(e, st.i, st'.i, k);
    StandsBehindTag(e, st.i, st'.i, k);
    var q, q' := TagMirror(e, st, st', k, o, m, enc);
    StepKeeps(e.y, st', enc);
    MovedEnd(e, k, st'.i);
    PlacementsPush(e, st'.opens, q'.opens, k);
    RoomBehind(e, q, k + 1, o.openEnd);
    SyncBehind(e, st, st', q, q', o.openEnd, m.openEnd);
  }

  // ----- the whole scan

  /** Moving on to the next `<` does not change the turn. */
  lemma StepFromLt(x: string, st: Scan, enc: HtmlEncoding)
    requires st.i < |x| && ValidStack(st.opens, st.stack) && CharAt(x, '<', st.i) < |x|
    ensures Step(x, st.(i := CharAt(x, '<', st.i)), enc) == Step(x, st, enc)
  {
    CharAtIs(x, '<', CharAt(x, '<', st.i), CharAt(x, '<', st.i));
  }

  lemma NextTagIsLt(e: Edit, st: Scan, st': Scan)
    requires Fine(e) && Sync(e, st, st') && st.i < |e.x|
    ensures |st.opens| < |e.o| ==> CharAt(e.x, '<', st.i) <= e.o[|st.opens|].start < |e.x|
  {
    if |st.opens| < |e.o| {
      assert TagFits(e.x, e.o[|st.opens|]);
    }
  }

  lemma LtMoves(x: string, y: string, i: nat, i': nat, r: nat, lt: nat, lt': nat)
    requires i < |x| && i' <= |y| && Alike(x[i..], y[i'..], r) && lt == CharAt(x, '<', i) < |x| && lt <= i + r &&
             lt' - lt == i' - i
    ensures i' <= lt' < |y| && CharAt(y, '<', i') == lt'
  {
    AlikeChars(x[i..], y[i'..], r);
    forall j | i' <= j <= lt' ensures j < |y| && y[j] == x[j - i' + i] {
      assert x[i..][j - i'] == y[i'..][j - i'];
    }
    CharAtIs(y, '<', i', lt');
  }

  /** The texts up to the next `<` are the same. */
  lemma SyncToLt(e: Edit, st: Scan, st': Scan, lt: nat, lt': nat)
    requires Fine(e) && Sync(e, st, st') && st.i < |e.x| && lt == CharAt(e.x, '<', st.i) < |e.x| &&
             lt' - lt == st'.i - st.i
    ensures st'.i <= lt' < |e.y| && CharAt(e.y, '<', st'.i) == lt' && Sync(e, st.(i := lt), st'.(i := lt'))
    ensures |st.opens| < |e.o| ==> lt <= e.o[|st.opens|].start
  {
    var k, m := |st.opens|, lt - st.i;
    NextTagIsLt(e, st, st');
    StandsAlike(e, st.i, st'.i, k);
    LtMoves(e.x, e.y, st.i, st'.i, Room(e, st.i, k), lt, lt');
    StandsTo(e, st.i, st'.i, k, lt, lt');
  }

  lemma SyncAtEnd(e: Edit, st: Scan, st': Scan, enc: HtmlEncoding)
    requires Fine(e) && Sync(e, st, st') && st.i < |e.x| && CharAt(e.x, '<', st.i) == |e.x|
    ensures st'.i < |e.y| && Sync(e, Step(e.x, st, enc), Step(e.y, st', enc))
  {
    var k := |st.opens|;
    NextTagIsLt(e, st, st');
    assert k == |e.o| && e.y[st'.i..] == e.x[st.i..];
    assert |e.y[st'.i..]| == |e.x[st.i..]|;
    forall j | st'.i <= j < |e.y| ensures e.y[j] != '<' {
      assert e.y[j] == e.y[st'.i..][j - st'.i] == e.x[st.i..][j - st'.i];
    }
    CharAtIs(e.y, '<', st'.i, |e.y|);
    StandsTo(e, st.i, st'.i, k, |e.x|, |e.y|);
  }

  lemma StepSync(e: Edit, st: Scan, st': Scan, enc: HtmlEncoding)
    requires Valid(e, enc) && Sync(e, st, st') && st.i < |e.x| && Foreseen(e, st, enc)
    ensures st'.i < |e.y| && Sync(e, Step(e.x, st, enc), Step(e.y, st', enc))
  {
    var lt := CharAt(e.x, '<', st.i);
    if lt == |e.x| {
      SyncAtEnd(e, st, st', enc);
    } else {
      var lt' := st'.i + (lt - st.i);
      SyncToLt(e, st, st', lt, lt');
      StepFromLt(e.x, st, enc);
      StepFromLt(e.y, st', enc);
      if |st.opens| < |e.o| && lt == e.o[|st.opens|].start {
        TagTurn(e, st.(i := lt), st'.(i := lt'), enc);
      } else {
        PlainTurn(e, st.(i := lt), st'.(i := lt'), enc);
      }
    }
  }

  lemma {:induction false} FinishSync(e: Edit, st: Scan, st': Scan, enc: HtmlEncoding)
    requires Valid(e, enc) && Sync(e, st, st') && e.o == Finish(e.x, st, enc).opens
    ensures Sync(e, Finish(e.x, st, enc), Finish(e.y, st', enc))
    decreases |e.x| - st.i
  {
    if st.i == |e.x| {
      assert e.y[st'.i..] == e.x[st.i..] == "";
      assert st'.i == |e.y|;
    } else {
      var r := Step(e.x, st, enc);
      FinishKeeps(e.x, r, enc);
      StepSync(e, st, st', enc);
      FinishSync(e, r, Step(e.y, st', enc), enc);
    }
  }

  /** The scan of the edited document finds the same tags, each in its place with its new attribute text. */
  lemma ReplacedScan(e: Edit, enc: HtmlEncoding)
    requires Valid(e, enc) && e.o == OpenTags(e.x, enc)
    ensures Twins(e.o, OpenTags(e.y, enc)) && Placements(e, OpenTags(e.y, enc))
  {
    var st := Scan(0, [], []);
    assert e.y[0..] == e.y;
    FinishSync(e, st, st, enc);
  }
}

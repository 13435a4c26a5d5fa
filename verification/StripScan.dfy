/** What stripping does to one tag, exactly, and a document whose scan it changes. */
module StripScan {
  import opened AsciiText
  import opened AttrText
  import opened AttrGrammar
  import opened AttrReading
  import opened Scanner
  import opened ScanEdit
  import opened ScanReplace
  import opened StampLists
  import opened StripLists
  import opened StripExact
  import opened Stamper
  import opened StampRegular

  // ----- one tag

  /** Without its last white space a text is as regular as with it. */
  lemma {:induction false} RegularShorter(list: seq<Attr>, t: string)
    requires Regular(list, t + " ")
    ensures Regular(list, t)
  {
    RegularTail(list, t, " ");
  }

  /** The stripped tag is read as its other attributes and, where the scanner asks, closes itself as before. */
  predicate SaysTheSame(o: OpenTag) {
    && KeepsOthers(o.attrs, CleanAttrs(o))
    && (o.ns != Html || IsVoid(o.tag) ==> (SelfCloses(CleanAttrs(o)) <==> SelfCloses(o.attrs)))
  }

  /** The space that stripAllAIDs puts behind a slash that comes to light changes no attribute. */
  lemma CleanReadsSame(o: OpenTag, list: seq<Attr>, tail: string)
    requires Regular(list, tail) && o.attrs == Render(list, tail)
    ensures KeepsOthers(o.attrs, CleanAttrs(o)) <==> Safe(list, tail, false)
  {
    var kept, end := Kept(list, ""), KeptTail(list, "", tail);
    StripReadsTheSame(list, tail);
    StripIsKept(list, tail);
    if CleanAttrs(o) != Strip(o.attrs) {
      RenderTail(kept, end, " ");
      assert Loose(kept, end + " ");
      ReadsAsList(kept, end + " ");
      RegularIsLoose(list, tail);
      ReadsAsList(list, tail);
      ContentsKept(list, "");
      if Regular(kept, end + " ") {
        RegularShorter(kept, end);
      }
      if Regular(kept, end) {
        RegularSelfCloses(kept, end);
        RegularSpace(kept, end);
      }
    }
  }

  /** Stripping leaves a tag with regular attribute text saying the same exactly when no slash comes to stand behind an
      unquoted value. */
  lemma CleanSaysTheSame(o: OpenTag, list: seq<Attr>, tail: string)
    requires Regular(list, tail) && o.attrs == Render(list, tail)
    ensures SaysTheSame(o) <==> Safe(list, tail, false)
  {
    CleanReadsSame(o, list, tail);
    if Safe(list, tail, false) {
      var kept, end := CleanKeeps(o, list, tail);
    }
  }

  // ----- a document

  /** An open tag as text. */
  function TagText(name: string, attrs: string): string {
    ['<'] + name + attrs + ['>']
  }

  /** Three open tags in a row, named p, q and r; the second has attributes. */
  function ThreeTags(p: string, q: string, r: string, attrs: string): string {
    TagText(p, "") + (TagText(q, attrs) + TagText(r, ""))
  }

  /** A tag of that text at `start`. */
  function TagAtStart(start: nat, name: string, attrs: string, ns: Namespace): OpenTag {
    var openEnd := start + |name| + |attrs| + 2;
    OpenTag(start, openEnd, openEnd, openEnd, name, name, attrs, ns, false, false)
  }

  predicate IsLowerName(n: string) {
    n != "" && forall i :: 0 <= i < |n| ==> 'a' <= n[i] <= 'z'
  }

  lemma TagTextIs(t: string, name: string, attrs: string)
    requires t == TagText(name, attrs)
    ensures |t| == |name| + |attrs| + 2 && t[0] == '<' && t[|t| - 1] == '>'
    ensures t[1..1 + |name|] == name && t[1 + |name|..|t| - 1] == attrs
  {
  }

  lemma SliceIs(x: string, front: string, t: string, rest: string, i: nat, j: nat)
    requires x == front + (t + rest) && i <= j <= |t|
    ensures |front| + |t| <= |x| && x[|front| + i..|front| + j] == t[i..j]
    ensures forall k :: 0 <= k < |t| ==> x[|front| + k] == t[k]
  {
  }

  lemma LowerIsLower(name: string)
    requires IsLowerName(name)
    ensures Lower(name) == name && IsTagName(name)
  {
  }

  lemma TagTextFits(
      x: string, start: nat, t: string, name: string, attrs: string, ns: Namespace, front: string, rest: string)
    requires t == TagText(name, attrs) && IsLowerName(name) && IsAttrsText(attrs)
    requires x == front + (t + rest) && start == |front|
    ensures TagFits(x, TagAtStart(start, name, attrs, ns))
  {
    TagTextIs(t, name, attrs);
    SliceIs(x, front, t, rest, 1, 1 + |name|);
    SliceIs(x, front, t, rest, 1 + |name|, |t| - 1);
    assert x[start + 0] == t[0] && x[start + (|t| - 1)] == t[|t| - 1];
    TagStandsAt(x, start, name, attrs, start + 1 + |name|, start + 1 + |name| + |attrs|, ns);
  }

  lemma TagStandsAt(x: string, start: nat, name: string, attrs: string, a: nat, e: nat, ns: Namespace)
    requires a == start + 1 + |name| && e == a + |attrs| < |x| && IsLowerName(name) && IsAttrsText(attrs)
    requires x[start] == '<' && x[start + 1..a] == name && x[a..e] == attrs && x[e] == '>'
    ensures TagFits(x, TagAtStart(start, name, attrs, ns))
  {
    LowerIsLower(name);
  }

  predicate Short(names: seq<string>, n: nat) {
    forall k :: 0 <= k < |names| ==> |names[k]| < n
  }

  lemma {:induction false} LongerThanAll(tag: string, names: seq<string>)
    requires Short(names, |tag|)
    ensures !OneOf(tag, names)
  {
    if names != [] {
      forall k | 0 <= k < |names[1..]| ensures |names[1..][k]| < |tag| {
        assert names[1..][k] == names[k + 1];
      }
      LongerThanAll(tag, names[1..]);
    }
  }

  lemma LongNamesStay(tag: string, attrs: string)
    requires |tag| > 12
    ensures !ForeignBreakout(tag, attrs) && !IsRawText(tag) && !IsVoid(tag)
    ensures tag != "svg" && tag != "math" && tag != "desc" && tag != "title"
  {
    BreakoutsAreShort();
    LongerThanAll(tag, BREAKOUT_TAGS);
    NamesAreShort(tag);
    VoidNamesAreShort(tag);
  }

  lemma BreakoutsAreShort()
    ensures Short(BREAKOUT_TAGS, 11)
  {
  }

  lemma NamesAreShort(tag: string)
    ensures IsRawText(tag) || tag == "font" || tag == "svg" || tag == "math" || tag == "desc" || tag == "title" ==>
            |tag| < 9
  {
    assert |"textarea"| == 8 && |"style"| == 5 && |"script"| == 6 && |"title"| == 5;
    assert |"font"| == 4 && |"svg"| == 3 && |"math"| == 4 && |"desc"| == 4;
  }

  lemma VoidNamesAreShort(tag: string)
    ensures IsVoid(tag) ==> |tag| < 7
  {
  }

  /** The namespace a tag is parsed in when it breaks out of nothing. */
  function NextNamespace(st: Scan, tag: string): Namespace
    requires ValidStack(st.opens, st.stack)
  {
    if st.stack == [] then RootNamespace(tag) else ChildNamespace(Top(st), tag)
  }

  /** A turn at a tag that breaks out of nothing and holds no raw text. */
  lemma EnterStep(x: string, st: Scan, t: OpenTag, enc: HtmlEncoding) returns (a: OpenTag, r: Scan)
    requires TagFits(x, t) && st.i == t.start && ValidStack(st.opens, st.stack) && !IsRawText(t.tag)
    requires st.stack == [] || !ForeignBreakout(t.tag, t.attrs)
    ensures st.i < |x| && r == Step(x, st, enc)
    ensures a.ns == NextNamespace(st, t.tag) && Head(a).(ns := t.ns, annotationHtml := t.annotationHtml) == Head(t)
    ensures !a.foreignPopped
    ensures r == Scan(t.openEnd, st.opens + [a],
                      if StaysOpen(t.tag, a.ns, t.attrs) then st.stack + [|st.opens|] else st.stack)
  {
    var st1;
    a, st1 := LandingIs(x, st, t, enc);
    assert st1 == st;
    r := Step(x, st, enc);
  }

  lemma EmptyCloses()
    ensures IsAttrsText("")
  {
  }

  lemma ThreeParts(x: string, t: string, u: string, v: string)
    requires x == t + (u + v)
    ensures x == "" + (t + (u + v)) && x == (t + u) + (v + "") && |x| == |t| + |u| + |v|
  {
  }

  lemma ThreeLengths(p: string, q: string, r: string, attrs: string)
    ensures |ThreeTags(p, q, r, attrs)| == |p| + |q| + |r| + |attrs| + 6
  {
    TagTextIs(TagText(p, ""), p, "");
    TagTextIs(TagText(q, attrs), q, attrs);
    TagTextIs(TagText(r, ""), r, "");
  }

  lemma FirstFits(x: string, p: string, q: string, r: string, attrs: string)
    requires x == ThreeTags(p, q, r, attrs) && IsLowerName(p)
    ensures TagFits(x, TagAtStart(0, p, "", Svg))
  {
    var t, u, v := TagText(p, ""), TagText(q, attrs), TagText(r, "");
    ThreeParts(x, t, u, v);
    EmptyCloses();
    TagTextFits(x, 0, t, p, "", Svg, "", u + v);
  }

  lemma SecondFits(x: string, p: string, q: string, r: string, attrs: string, i: nat)
    requires x == ThreeTags(p, q, r, attrs) && IsLowerName(q) && IsAttrsText(attrs) && i == |p| + 2
    ensures TagFits(x, TagAtStart(i, q, attrs, Svg))
  {
    var t := TagText(p, "");
    TagTextIs(t, p, "");
    TagTextFits(x, i, TagText(q, attrs), q, attrs, Svg, t, TagText(r, ""));
  }

  lemma ThirdFits(x: string, p: string, q: string, r: string, attrs: string, j: nat)
    requires x == ThreeTags(p, q, r, attrs) && IsLowerName(r) && j == |p| + |q| + |attrs| + 4
    ensures TagFits(x, TagAtStart(j, r, "", Svg))
  {
    var t, u, v := TagText(p, ""), TagText(q, attrs), TagText(r, "");
    TagTextIs(t, p, "");
    TagTextIs(u, q, attrs);
    ThreeParts(x, t, u, v);
    EmptyCloses();
    TagTextFits(x, j, v, r, "", Svg, t + u, "");
  }

  /** `p` opens foreign content, `q` is an integration point in it, and `r` an ordinary tag there; none of them breaks
      out. */
  predicate Nested(p: string, q: string, r: string, attrs: string) {
    && IsLowerName(p) && IsLowerName(q) && IsLowerName(r)
    && !IsRawText(p) && !IsRawText(q) && !IsRawText(r) && !ForeignBreakout(q, attrs) && !ForeignBreakout(r, "")
    && RootNamespace(p) == Svg && RootNamespace(r) == Html && !IsVoid(r)
    && !IsIntegration(p) && IsIntegration(q)
  }

  predicate IsIntegration(tag: string) {
    tag == "foreignobject" || tag == "desc" || tag == "title"
  }

  /** An open element of foreign content. */
  predicate IsForeign(o: OpenTag, name: string) {
    o.tag == name && o.ns == Svg && !o.foreignPopped
  }

  lemma ForeignChild(o: OpenTag, name: string, child: string)
    requires IsForeign(o, name)
    ensures ChildNamespace(o, child) == if IsIntegration(name) then RootNamespace(child) else Svg
  {
  }

  /** The namespace of the third tag: foreign when the second closes itself, HTML inside it when it stays open. */
  function ThirdNamespace(attrs: string): Namespace {
    if SelfCloses(attrs) then Svg else Html
  }

  lemma FirstStep(p: string, q: string, r: string, attrs: string, enc: HtmlEncoding) returns (a: OpenTag, st: Scan)
    requires IsAttrsText(attrs) && Nested(p, q, r, attrs)
    ensures var x := ThreeTags(p, q, r, attrs); |x| > 0 && st == Step(x, Scan(0, [], []), enc)
    ensures st == Scan(|p| + 2, [a], [0]) && IsForeign(a, p)
    ensures a.attrs == "" && a.start == 0 && a.openEnd == |p| + 2 && a.origTag == p
  {
    FirstFits(ThreeTags(p, q, r, attrs), p, q, r, attrs);
    a, st := EnterStep(ThreeTags(p, q, r, attrs), Scan(0, [], []), TagAtStart(0, p, "", Svg), enc);
    HeadIs(a, TagAtStart(0, p, "", Svg));
  }

  lemma HeadIs(a: OpenTag, t: OpenTag)
    requires Head(a).(ns := t.ns, annotationHtml := t.annotationHtml) == Head(t)
    ensures a.start == t.start && a.openEnd == t.openEnd && a.tag == t.tag && a.origTag == t.origTag &&
            a.attrs == t.attrs
  {
    var h := Head(a).(ns := t.ns, annotationHtml := t.annotationHtml);
    assert h.start == a.start && h.openEnd == a.openEnd && h.tag == a.tag && h.origTag == a.origTag &&
           h.attrs == a.attrs;
  }

  /** A turn at a tag inside the open foreign element `o`. */
  lemma ForeignStep(x: string, s: Scan, t: OpenTag, o: OpenTag, name: string, enc: HtmlEncoding)
    returns (a: OpenTag, st: Scan)
    requires TagFits(x, t) && s.i == t.start && ValidStack(s.opens, s.stack) && s.stack != [] && Top(s) == o
    requires IsForeign(o, name) && !IsRawText(t.tag) && !ForeignBreakout(t.tag, t.attrs)
    ensures s.i < |x| && st == Step(x, s, enc) && !a.foreignPopped && a.tag == t.tag && a.origTag == t.origTag
    ensures a.start == t.start && a.openEnd == t.openEnd && a.attrs == t.attrs
    ensures a.ns == if IsIntegration(name) then RootNamespace(t.tag) else Svg
    ensures st == Scan(t.openEnd, s.opens + [a],
                       if StaysOpen(t.tag, a.ns, t.attrs) then s.stack + [|s.opens|] else s.stack)
  {
    ForeignChild(o, name, t.tag);
    a, st := EnterStep(x, s, t, enc);
    HeadIs(a, t);
  }

  /** The second tag's turn. */
  lemma InsideOne(x: string, s: Scan, t: OpenTag, a: OpenTag, name: string, enc: HtmlEncoding)
    returns (b: OpenTag, st: Scan)
    requires TagFits(x, t) && s == Scan(t.start, [a], [0]) && IsForeign(a, name) && !IsIntegration(name)
    requires !IsRawText(t.tag) && !ForeignBreakout(t.tag, t.attrs)
    ensures s.i < |x| && st == Step(x, s, enc) && IsForeign(b, t.tag) && b.origTag == t.origTag
    ensures b.start == t.start && b.openEnd == t.openEnd && b.attrs == t.attrs
    ensures st == Scan(t.openEnd, [a, b], if SelfCloses(t.attrs) then [0] else [0, 1])
  {
    b, st := ForeignStep(x, s, t, a, name, enc);
    assert [a] + [b] == [a, b] && [0] + [1] == [0, 1];
  }

  /** The third tag's turn, in the first element or in the second. */
  lemma InsideTwo(x: string, s: Scan, t: OpenTag, a: OpenTag, b: OpenTag, o: OpenTag, name: string, enc: HtmlEncoding)
    returns (c: OpenTag, st: Scan)
    requires TagFits(x, t) && s.i == t.start && s.opens == [a, b]
    requires (s.stack == [0] && o == a) || (s.stack == [0, 1] && o == b)
    requires IsForeign(o, name) && !IsRawText(t.tag) && !ForeignBreakout(t.tag, t.attrs) && RootNamespace(t.tag) == Html
    ensures s.i < |x| && st == Step(x, s, enc) && st.i == t.openEnd && st.opens == [a, b, c]
    ensures c.start == t.start && c.openEnd == t.openEnd && c.attrs == t.attrs && c.origTag == t.origTag
    ensures c.ns == if IsIntegration(name) then Html else Svg
  {
    c, st := ForeignStep(x, s, t, o, name, enc);
    assert [a, b] + [c] == [a, b, c];
  }

  lemma SecondStep(p: string, q: string, r: string, attrs: string, a: OpenTag, s: Scan, enc: HtmlEncoding)
    returns (b: OpenTag, st: Scan)
    requires IsAttrsText(attrs) && Nested(p, q, r, attrs) && s == Scan(|p| + 2, [a], [0]) && IsForeign(a, p)
    ensures var x := ThreeTags(p, q, r, attrs); s.i < |x| && st == Step(x, s, enc)
    ensures st == Scan(|p| + |q| + |attrs| + 4, [a, b], if SelfCloses(attrs) then [0] else [0, 1]) && IsForeign(b, q)
    ensures b.attrs == attrs && b.start == |p| + 2 && b.openEnd == |p| + |q| + |attrs| + 4 && b.origTag == q
  {
    SecondFits(ThreeTags(p, q, r, attrs), p, q, r, attrs, |p| + 2);
    b, st := InsideOne(ThreeTags(p, q, r, attrs), s, TagAtStart(|p| + 2, q, attrs, Svg), a, p, enc);
  }

  lemma ThirdStep(p: string, q: string, r: string, attrs: string, a: OpenTag, b: OpenTag, s: Scan, enc: HtmlEncoding)
    returns (c: OpenTag, st: Scan)
    requires IsAttrsText(attrs) && Nested(p, q, r, attrs) && IsForeign(a, p) && IsForeign(b, q)
    requires s == Scan(|p| + |q| + |attrs| + 4, [a, b], if SelfCloses(attrs) then [0] else [0, 1])
    ensures var x := ThreeTags(p, q, r, attrs); s.i < |x| && st == Step(x, s, enc) && st.i == |x|
    ensures st.opens == [a, b, c] && c.ns == ThirdNamespace(attrs)
    ensures c.attrs == "" && c.start == s.i && c.openEnd == s.i + |r| + 2 && c.origTag == r
  {
    var x, t := ThreeTags(p, q, r, attrs), TagAtStart(s.i, r, "", Svg);
    ThirdFits(x, p, q, r, attrs, s.i);
    ThreeLengths(p, q, r, attrs);
    if SelfCloses(attrs) {
      c, st := InsideTwo(x, s, t, a, b, a, p, enc);
    } else {
      c, st := InsideTwo(x, s, t, a, b, b, q, enc);
    }
  }

  lemma FinishStep(x: string, st: Scan, r: Scan, enc: HtmlEncoding)
    requires st.i < |x| && ValidStack(st.opens, st.stack) && r == Step(x, st, enc)
    ensures Finish(x, st, enc) == Finish(x, r, enc)
  {
  }

  /** The scan of the three tags. */
  lemma ThreeScan(p: string, q: string, r: string, attrs: string, enc: HtmlEncoding) returns (o: seq<OpenTag>)
    requires IsAttrsText(attrs) && Nested(p, q, r, attrs)
    ensures o == OpenTags(ThreeTags(p, q, r, attrs), enc) && |o| == 3
    ensures o[0].attrs == "" && o[1].attrs == attrs && o[2].attrs == ""
    ensures o[0].start == 0 && o[1].start == o[0].openEnd && o[2].start == o[1].openEnd
    ensures o[0].origTag == p && o[1].origTag == q && o[2].origTag == r
    ensures o[0].openEnd == |p| + 2 && o[1].openEnd == |p| + |q| + |attrs| + 4
    ensures o[2].openEnd == o[1].openEnd + |r| + 2 && o[1].ns == Svg && o[2].ns == ThirdNamespace(attrs)
  {
    var x, st := ThreeTags(p, q, r, attrs), Scan(0, [], []);
    var a, s := FirstStep(p, q, r, attrs, enc);
    var b, t := SecondStep(p, q, r, attrs, a, s, enc);
    var c, u := ThirdStep(p, q, r, attrs, a, b, t, enc);
    FinishStep(x, st, s, enc);
    FinishStep(x, s, t, enc);
    FinishStep(x, t, u, enc);
    o := [a, b, c];
  }

  /** The text with its second tag's attribute text between what stands in front of it and behind it. */
  lemma AroundAttrs(p: string, q: string, r: string, attrs: string)
    ensures ThreeTags(p, q, r, attrs) == (TagText(p, "") + (['<'] + q)) + attrs + (['>'] + TagText(r, ""))
  {
    var t, v := TagText(p, ""), TagText(r, "");
    assert t + ((['<'] + q + attrs + ['>']) + v) == (t + (['<'] + q)) + attrs + (['>'] + v);
  }

  /** Over a tag that keeps its attribute text the new document goes on as the old one. */
  lemma TailSame(x: string, o: seq<OpenTag>, n: seq<string>, i: nat, k: nat, e: nat, rest: string)
    requires TagsFit(x, o) && |n| == |o| && k < |o| && TagFits(x, o[k]) && n[k] == o[k].attrs && i <= AttrsAt(o[k])
    requires e + 1 == o[k].openEnd && (k + 1 < |o| ==> e <= AttrsAt(o[k + 1])) && rest == Tail(x, o, n, e, k + 1)
    ensures Tail(x, o, n, i, k) == x[i..e] + rest
  {
    var a := AttrsAt(o[k]);
    TailIs(x, o, n, i, k, n[k] + rest);
    assert x[i..a] + x[a..e] == x[i..e];
    assert x[i..a] + (n[k] + rest) == (x[i..a] + n[k]) + rest;
  }

  lemma TailDone(x: string, o: seq<OpenTag>, n: seq<string>, i: nat)
    requires TagsFit(x, o) && |n| == |o| && i <= |x|
    ensures Tail(x, o, n, i, |o|) == x[i..]
  {
  }

  lemma TailEnd(x: string, o: seq<OpenTag>, n: seq<string>, k: nat, i: nat, e: nat)
    requires TagsFit(x, o) && |n| == |o| == k + 1 && TagFits(x, o[k]) && n[k] == o[k].attrs
    requires i <= AttrsAt(o[k]) && e + 1 == o[k].openEnd
    ensures Tail(x, o, n, i, k) == x[i..]
  {
    TailDone(x, o, n, e);
    TailSame(x, o, n, i, k, e, x[e..]);
    Halves(x, i, e);
  }

  lemma Halves(x: string, i: nat, e: nat)
    requires i <= e <= |x|
    ensures x[i..e] + x[e..] == x[i..]
  {
  }

  /** Writing another attribute text for the last tag but one. */
  lemma TailChangedOnce(x: string, o: seq<OpenTag>, n: seq<string>, a: nat, b: nat, i: nat, k: nat)
    returns (rest: string)
    requires TagsFit(x, o) && |n| == |o| == k + 2 && n[k + 1] == o[k + 1].attrs && a <= b == AttrsAt(o[k])
    requires TagFits(x, o[k]) && TagFits(x, o[k + 1]) && i + 1 == o[k].openEnd && b <= i <= |x|
    ensures rest == Tail(x, o, n, a, k) && rest == x[a..b] + (n[k] + x[i..])
  {
    TailEnd(x, o, n, k + 1, i, o[k + 1].openEnd - 1);
    rest := x[a..b] + (n[k] + x[i..]);
    TailIs(x, o, n, a, k, n[k] + x[i..]);
  }

  /** Writing another attribute text for the second of three tags. */
  lemma SecondReplaced(x: string, o: seq<OpenTag>, n: seq<string>, a: nat, b: nat, i: nat)
    requires TagsFit(x, o) && |o| == |n| == 3 && n[0] == o[0].attrs && n[2] == o[2].attrs
    requires a + 1 == o[0].openEnd && b == AttrsAt(o[1]) && i + 1 == o[1].openEnd && a <= b <= i <= |x|
    ensures Replaced(x, o, n) == x[..b] + n[1] + x[i..]
  {
    AllFit(x, o, 0);
    AllFit(x, o, 1);
    AllFit(x, o, 2);
    var rest := TailChangedOnce(x, o, n, a, b, i, 1);
    ReplacedFrom(x, o, n, a, rest);
    Pieces3(x, a, b, n[1], x[i..]);
  }

  lemma ReplacedFrom(x: string, o: seq<OpenTag>, n: seq<string>, a: nat, rest: string)
    requires TagsFit(x, o) && |n| == |o| && 1 < |o| && TagFits(x, o[0]) && n[0] == o[0].attrs && a + 1 == o[0].openEnd
    requires a <= AttrsAt(o[1]) && rest == Tail(x, o, n, a, 1)
    ensures Replaced(x, o, n) == x[0..a] + rest
  {
    TailSame(x, o, n, 0, 0, a, rest);
  }

  lemma Pieces3(x: string, a: nat, b: nat, text: string, rest: string)
    requires a <= b <= |x|
    ensures x[0..a] + (x[a..b] + (text + rest)) == x[..b] + text + rest
  {
    assert x[0..a] + x[a..b] == x[..b];
    assert x[0..a] + (x[a..b] + (text + rest)) == (x[0..a] + x[a..b]) + text + rest;
  }

  lemma AllFit(x: string, o: seq<OpenTag>, k: nat)
    requires TagsFit(x, o) && k < |o|
    ensures TagFits(x, o[k])
  {
  }

  lemma AroundSlices(x: string, front: string, was: string, rest: string)
    requires x == front + was + rest
    ensures x[..|front|] == front && x[|front| + |was|..] == rest
  {
  }

  lemma EmptyStays()
    ensures Strip("") == ""
  {
  }

  /** Stripping the three tags strips the second one, whose attribute text is regular. */
  lemma ThreeStripped(p: string, q: string, r: string, attrs: string, enc: HtmlEncoding)
    requires IsAttrsText(attrs) && Nested(p, q, r, attrs) && SelfCloses(attrs)
    ensures StripAll(ThreeTags(p, q, r, attrs), enc) == ThreeTags(p, q, r, Strip(attrs))
  {
    var x := ThreeTags(p, q, r, attrs);
    var o := ThreeScan(p, q, r, attrs, enc);
    ScannedTagsFit(x, enc);
    EmptyStays();
    assert Cleans(o) == ["", Strip(attrs), ""] by {
      assert CleanAttrs(o[0]) == "" && CleanAttrs(o[1]) == Strip(attrs) && CleanAttrs(o[2]) == "";
    }
    var front, rest := TagText(p, "") + (['<'] + q), ['>'] + TagText(r, "");
    AroundAttrs(p, q, r, attrs);
    AroundAttrs(p, q, r, Strip(attrs));
    AroundSlices(x, front, attrs, rest);
    SecondReplaced(x, o, Cleans(o), |p| + 1, |front|, |front| + |attrs|);
  }

  lemma NestedIf(p: string, q: string, r: string, attrs: string)
    requires IsLowerName(p) && !IsRawText(p) && RootNamespace(p) == Svg && !IsIntegration(p)
    requires IsLowerName(q) && |q| > 12 && IsIntegration(q) && IsLowerName(r) && |r| > 12
    ensures Nested(p, q, r, attrs)
  {
    LongNamesStay(q, attrs);
    LongNamesStay(r, "");
  }

  lemma RootName()
    ensures IsLowerName("svg") && !IsRawText("svg") && RootNamespace("svg") == Svg && !IsIntegration("svg")
  {
    assert |"svg"| == 3 && |"style"| == 5 && |"title"| == 5 && |"desc"| == 4;
  }

  lemma InnerName()
    ensures IsLowerName("foreignobject") && |"foreignobject"| == 13
  {
  }

  lemma ChildName()
    ensures IsLowerName("lineargradient") && |"lineargradient"| == 14
  {
  }

  lemma NestedNames(attrs: string)
    ensures Nested("svg", "foreignobject", "lineargradient", attrs)
  {
    RootName();
    InnerName();
    ChildName();
    NestedIf("svg", "foreignobject", "lineargradient", attrs);
  }

  /** In `<svg><foreignobject a=t data-odoc-aid="x"/><lineargradient>` the second tag closes itself; stripped it does
      not, and the third tag is parsed inside it, as HTML. */
  lemma StripChangesScan(t: string, enc: HtmlEncoding) returns (html: string)
    requires IsBareText(t)
    ensures html == ThreeTags("svg", "foreignobject", "lineargradient", Render([BareAttr(t), AidAttr("", "x")], "/"))
    ensures |OpenTags(html, enc)| == |OpenTags(StripAll(html, enc), enc)| == 3
    ensures OpenTags(html, enc)[2].ns == Svg && OpenTags(StripAll(html, enc), enc)[2].ns == Html
  {
    var attrs := GluedSlash(t);
    html := StrippedScan("svg", "foreignobject", "lineargradient", t, attrs, enc);
  }

  lemma StrippedScan(p: string, q: string, r: string, t: string, attrs: string, enc: HtmlEncoding)
    returns (html: string)
    requires IsBareText(t) && p == "svg" && q == "foreignobject" && r == "lineargradient"
    requires attrs == Render([BareAttr(t), AidAttr("", "x")], "/") && Regular([BareAttr(t), AidAttr("", "x")], "/")
    requires SelfCloses(attrs) && !SelfCloses(Strip(attrs))
    ensures html == ThreeTags(p, q, r, attrs)
    ensures |OpenTags(html, enc)| == |OpenTags(StripAll(html, enc), enc)| == 3
    ensures OpenTags(html, enc)[2].ns == Svg && OpenTags(StripAll(html, enc), enc)[2].ns == Html
  {
    html := ThreeTags(p, q, r, attrs);
    NestedNames(attrs);
    NestedNames(Strip(attrs));
    RegularIsAttrsText([BareAttr(t), AidAttr("", "x")], "/");
    StrippedIsAttrsText(t);
    var o := ThreeScan(p, q, r, attrs, enc);
    ThreeStripped(p, q, r, attrs, enc);
    var n := ThreeScan(p, q, r, Strip(attrs), enc);
  }

  lemma StrippedIsAttrsText(t: string)
    requires IsBareText(t)
    ensures IsAttrsText(Strip(Render([BareAttr(t), AidAttr("", "x")], "/")))
  {
    var x := AidAttr("", "x");
    AidAlone(x, "/");
    AidSays(x);
    GluedIsAttrsText(t, x);
  }

  lemma GluedIsAttrsText(t: string, x: Attr)
    requires IsBareText(t) && x.sep == " " && IsAidName(x.name) && Regular([x], "/")
    ensures IsAttrsText(Strip(Render([BareAttr(t), x], "/")))
  {
    GluedText(t, x);
    BareGrows(t);
    BareIsAttrsText(t + "/");
  }

  lemma BareIsAttrsText(t: string)
    requires IsBareText(t)
    ensures IsAttrsText(Render([BareAttr(t)], ""))
  {
    BareRegular(t);
    RegularIsAttrsText([BareAttr(t)], "");
  }
}

/** Replacing the attribute texts of a document's open tags: the scan of the result is the scan of the
    document, tag by tag.
    A tag fits a document when its name and attribute text stand where its positions say. The tags of a scan fit its
    document and never change again but for the end of their element (`Head`), so those a finished scan found say, at
    every earlier turn, which open tag comes next and that the text in front of it opens none (`Ahead`). What the
    tokenizer reads inside a tag is read the same way whatever the document around it. */
module ScanEdit {
  import opened AsciiText
  import opened TagSyntax
  import opened TagMachine
  import opened Scanner
  import opened ScanFacts
  import opened StampText

  // ----- what a scanned tag says about the text

  function AttrsAt(o: OpenTag): nat {
    o.start + 1 + |o.origTag|
  }

  predicate IsTagName(n: string) {
    n != "" && IsLetter(n[0]) && forall i :: 0 <= i < |n| ==> IsNameChar(n[i])
  }

  predicate IsAttrsText(a: string) {
    Closes(a) && (a != "" ==> EndsName(a[0]))
  }

  /** The open tag `o` lies in `x`. */
  predicate TagFits(x: string, o: OpenTag) {
    && AttrsAt(o) + |o.attrs| + 1 == o.openEnd <= |x|
    && x[o.start] == '<' && x[o.start + 1..AttrsAt(o)] == o.origTag
    && x[AttrsAt(o)..o.openEnd - 1] == o.attrs && x[o.openEnd - 1] == '>'
    && IsTagName(o.origTag) && o.tag == Lower(o.origTag) && IsAttrsText(o.attrs)
  }

  predicate TagsFit(x: string, o: seq<OpenTag>) {
    && (forall k {:trigger TagFits(x, o[k])} :: 0 <= k < |o| ==> TagFits(x, o[k]))
    && (forall j, k :: 0 <= j < k < |o| ==> o[j].openEnd <= o[k].start)
  }

  /** What of a tag never changes while the scan goes on. */
  function Head(o: OpenTag): OpenTag {
    o.(closeStart := 0, closeEnd := 0, foreignPopped := false)
  }

  predicate SameHeads(o: seq<OpenTag>, p: seq<OpenTag>) {
    |o| <= |p| && forall k :: 0 <= k < |o| ==> Head(o[k]) == Head(p[k])
  }

  lemma LowerName(n: string)
    requires IsTagName(n)
    ensures IsTagText(Lower(n))
  {
    forall i | 0 <= i < |n| ensures IsNameChar(Lower(n)[i]) {
      assert IsNameChar(n[i]);
    }
  }

  /** The attribute text of a tag that ends is read to its `>`. */
  lemma {:induction false} ReadFed(x: string, k: nat, s: TagState)
    requires k <= |x| && Read(x, k, s).Exit?
    ensures
      var e := Read(x, k, s).end - 1;
      Feed(s, x[k..e]).At? && !InQuote(Feed(s, x[k..e]).state) && x[e] == '>'
    decreases |x| - k
  {
    var e := Read(x, k, s).end - 1;
    match Consume(s, x[k])
    case Emitted(_) =>
      Direct(s, x[k]);
    case In(u) =>
      ReadFed(x, k + 1, u);
      assert x[k..e][0] == x[k] && x[k..e][1..] == x[k + 1..e];
  }

  lemma {:induction false} FedRead(x: string, k: nat, e: nat, s: TagState)
    requires k <= e < |x| && x[e] == '>' && Feed(s, x[k..e]).At? && !InQuote(Feed(s, x[k..e]).state)
    ensures Read(x, k, s).Exit? && Read(x, k, s).end == e + 1
  {
    var u := Feed(s, x[k..e]).state;
    ReadOver(x, k, e, s, u);
    Direct(u, '>');
  }

  lemma ProbedName(x: string, lt: nat)
    requires lt < |x| && Probe(x[lt..]).Found?
    ensures var ne := Probe(x[lt..]).value; lt + ne <= |x| && IsTagName(x[lt + 1..lt + ne]) && x[lt] == '<'
    ensures var ne := Probe(x[lt..]).value; lt + ne < |x| ==> EndsName(x[lt + ne])
  {
    var t := x[lt..];
    var ne := Probe(t).value;
    var name := x[lt + 1..lt + ne];
    forall j | 0 <= j < |name| ensures IsNameChar(name[j]) { assert name[j] == t[j + 1]; }
    assert name[0] == t[1];
    if lt + ne < |x| { assert x[lt + ne] == t[ne]; }
  }

  lemma ProbedAttrs(x: string, lt: nat, ne: nat, e: nat)
    requires lt < |x| && Probe(x[lt..]).Found? && Read(x, lt + 1, TagName).Exit?
    requires ne == Probe(x[lt..]).value && e == Read(x, lt + 1, TagName).end
    ensures lt + ne < e <= |x| && IsAttrsText(x[lt + ne..e - 1]) && x[e - 1] == '>'
  {
    NameInsideTag(x, lt);
    ReadFed(x, lt + ne, TagName);
    ProbedName(x, lt);
    var attrs := x[lt + ne..e - 1];
    if attrs != "" { assert attrs[0] == x[lt + ne]; }
  }

  /** A new tag lies in the text. */
  lemma NewTagFits(x: string, lt: nat, ne: nat, e: nat, ns: Namespace, enc: HtmlEncoding)
    requires lt < |x| && Probe(x[lt..]).Found? && Read(x, lt + 1, TagName).Exit?
    requires ne == Probe(x[lt..]).value && e == Read(x, lt + 1, TagName).end
    ensures lt + ne < e && TagFits(x, NewTag(x, lt, ne, e, ns, enc))
  {
    ProbedName(x, lt);
    ProbedAttrs(x, lt, ne, e);
  }

  lemma OpenStepTag(x: string, st: Scan, lt: nat, ne: nat, openEnd: nat, enc: HtmlEncoding) returns (o: OpenTag)
    requires ValidStack(st.opens, st.stack) && 2 <= ne && lt + ne < openEnd <= |x|
    ensures
      var r := OpenStep(x, st, lt, ne, openEnd, enc).opens;
      |r| == |st.opens| + 1 && o == NewTag(x, lt, ne, openEnd, o.ns, enc) && Head(r[|st.opens|]) == Head(o)
  {
    o := Landing(x, st, lt, ne, openEnd, enc).1;
  }

  lemma HeadFits(x: string, o: OpenTag, p: OpenTag)
    requires TagFits(x, o) && Head(p) == Head(o)
    ensures TagFits(x, p) && p.start == o.start && p.openEnd == o.openEnd
  {
    assert Head(p).start == p.start && Head(p).openEnd == p.openEnd && Head(p).tag == p.tag;
    assert Head(p).origTag == p.origTag && Head(p).attrs == p.attrs;
  }

  lemma OpenStepFits(x: string, st: Scan, lt: nat, enc: HtmlEncoding)
    requires lt < |x| && ValidStack(st.opens, st.stack) && Probe(x[lt..]).Found? && Read(x, lt + 1, TagName).Exit?
    ensures
      var ne, e := Probe(x[lt..]).value, Read(x, lt + 1, TagName).end;
      && lt + ne < e
      && var r := OpenStep(x, st, lt, ne, e, enc).opens;
         |r| == |st.opens| + 1 && TagFits(x, r[|st.opens|]) && r[|st.opens|].start == lt
  {
    var ne, e := Probe(x[lt..]).value, Read(x, lt + 1, TagName).end;
    ProbedAttrs(x, lt, ne, e);
    var o := OpenStepTag(x, st, lt, ne, e, enc);
    NewTagFits(x, lt, ne, e, o.ns, enc);
    HeadFits(x, o, OpenStep(x, st, lt, ne, e, enc).opens[|st.opens|]);
  }

  lemma StepAtTag(x: string, st: Scan, lt: nat, t: string, enc: HtmlEncoding)
    requires st.i == lt < |x| && t == x[lt..] && t[0] == '<' && ValidStack(st.opens, st.stack)
    ensures
      var r := StepAt(x, st, lt, t, enc).opens;
      |r| > |st.opens| ==> TagFits(x, r[|st.opens|]) && r[|st.opens|].start == lt
  {
    if CommentLen(t).Absent? && |t| > 1 && t[1] != '/' && t[1] != '!' && t[1] != '?' && Probe(t).Found? &&
       Read(x, lt + 1, TagName).Exit? {
      OpenStepFits(x, st, lt, enc);
      OpensHere(x, st, lt, t, enc);
    } else {
      NoTagStep(x, st, lt, t, enc);
    }
  }

  lemma OpensHere(x: string, st: Scan, lt: nat, t: string, enc: HtmlEncoding)
    requires st.i == lt < |x| && t == x[lt..] && t[0] == '<' && ValidStack(st.opens, st.stack)
    requires CommentLen(t).Absent? && |t| > 1 && t[1] != '/' && t[1] != '!' && t[1] != '?' && Probe(t).Found?
    requires Read(x, lt + 1, TagName).Exit? && lt + Probe(t).value < Read(x, lt + 1, TagName).end
    ensures StepAt(x, st, lt, t, enc) == OpenStep(x, st, lt, Probe(t).value, Read(x, lt + 1, TagName).end, enc)
  {
  }

  lemma NoTagStep(x: string, st: Scan, lt: nat, t: string, enc: HtmlEncoding)
    requires st.i == lt < |x| && t == x[lt..] && t[0] == '<' && ValidStack(st.opens, st.stack)
    requires CommentLen(t).Found? || |t| <= 1 || t[1] == '/' || t[1] == '!' || t[1] == '?' || Probe(t).Absent? ||
             Read(x, lt + 1, TagName).Unterminated?
    ensures |StepAt(x, st, lt, t, enc).opens| == |st.opens|
  {
  }

  /** From index `k` on, the tags in `o` lie in the text, one behind the other, at `i` or behind. */
  predicate Ahead(x: string, o: seq<OpenTag>, k: nat, i: nat) {
    && (forall j :: k <= j < |o| ==> i <= o[j].start && TagFits(x, o[j]))
    && (forall j, l :: k <= j < l < |o| ==> o[j].openEnd <= o[l].start)
  }

  /** One turn keeps the tags found so far, and a tag it adds lies in the text. */
  lemma StepKeeps(x: string, st: Scan, enc: HtmlEncoding)
    requires st.i < |x| && ValidStack(st.opens, st.stack)
    ensures
      var r := Step(x, st, enc);
      && SameHeads(st.opens, r.opens) && |r.opens| <= |st.opens| + 1
      && (|r.opens| > |st.opens| ==>
            var o := r.opens[|st.opens|]; TagFits(x, o) && st.i <= o.start && o.openEnd <= r.i)
  {
    var marked, change, i := StepShape(x, st, enc);
    var lt := CharAt(x, '<', st.i);
    if lt < |x| {
      StepAtTag(x, st.(i := lt), lt, x[lt..], enc);
    }
  }

  lemma AheadOf(x: string, r: seq<OpenTag>, o: seq<OpenTag>, k: nat, i: nat, i': nat)
    requires k <= |r| <= k + 1 && i <= i' && SameHeads(r, o) && Ahead(x, o, |r|, i')
    requires |r| > k ==> TagFits(x, r[k]) && i <= r[k].start && r[k].openEnd <= i'
    ensures Ahead(x, o, k, i)
  {
    if |r| > k {
      HeadFits(x, r[k], o[k]);
      forall j | k <= j < |o| ensures i <= o[j].start && TagFits(x, o[j]) && (j > k ==> o[k].openEnd <= o[j].start) {
        assert j > k ==> i' <= o[j].start;
      }
    }
  }

  /** The tags a scan ends with: those it has, and then others that start where it stands or behind. */
  lemma {:induction false} FinishKeeps(x: string, st: Scan, enc: HtmlEncoding)
    requires st.i <= |x| && ValidStack(st.opens, st.stack)
    ensures SameHeads(st.opens, Finish(x, st, enc).opens)
    ensures Ahead(x, Finish(x, st, enc).opens, |st.opens|, st.i)
    decreases |x| - st.i
  {
    if st.i < |x| {
      var r := Step(x, st, enc);
      StepKeeps(x, st, enc);
      FinishKeeps(x, r, enc);
      AheadOf(x, r.opens, Finish(x, r, enc).opens, |st.opens|, st.i, r.i);
    }
  }

  lemma ScannedTagsFit(x: string, enc: HtmlEncoding)
    ensures TagsFit(x, OpenTags(x, enc))
  {
    FinishKeeps(x, Scan(0, [], []), enc);
  }
}

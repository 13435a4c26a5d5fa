/** Two scans whose tags differ only in position and attribute text take the same turns.
    Such tags are twins: same name, namespace and flags. Whatever a turn does to the stack, closing an element, popping
    foreign elements or pushing the new tag, it decides by names and namespaces, so it does the same to both scans, and
    the positions it records differ by the distance of the two texts. One lemma for each operation of Scanner says so;
    the turns put them together. */
module ScanTwin {
  import opened TagSyntax
  import opened TagMachine
  import opened Scanner
  import opened ScanLocal

  /** The same tag, apart from where it is and what its attribute text says. */
  predicate Twin(o: OpenTag, p: OpenTag) {
    && o.tag == p.tag && o.origTag == p.origTag && o.ns == p.ns
    && o.annotationHtml == p.annotationHtml && o.foreignPopped == p.foreignPopped
  }

  predicate Twins(o: seq<OpenTag>, p: seq<OpenTag>) {
    |o| == |p| && forall k :: 0 <= k < |o| ==> Twin(o[k], p[k])
  }

  /** The scans hold the same tags and stack, `d` characters apart. */
  predicate Mirror(st: Scan, st': Scan, d: int) {
    && st'.i == st.i + d && st.stack == st'.stack && Twins(st.opens, st'.opens)
    && ValidStack(st.opens, st.stack) && ValidStack(st'.opens, st'.stack)
  }

  predicate NamesAreText(o: seq<OpenTag>) {
    forall k :: 0 <= k < |o| ==> IsTagText(o[k].tag)
  }

  lemma SameNamespace(o: OpenTag, p: OpenTag, child: string)
    requires Twin(o, p)
    ensures ChildNamespace(o, child) == ChildNamespace(p, child)
  {
  }

  lemma {:induction false} PopLike(o: seq<OpenTag>, p: seq<OpenTag>, stack: seq<nat>, n: nat, token: string)
    requires Twins(o, p) && ValidStack(o, stack) && ValidStack(p, stack) && n <= |stack|
    ensures Twins(PopForeign(o, stack, n, token), PopForeign(p, stack, n, token))
    decreases n
  {
    if n > 0 {
      var k := stack[n - 1];
      SameNamespace(o[k], p[k], token);
      if ChildNamespace(o[k], token) != Html {
        PopLike(o[k := o[k].(foreignPopped := true)], p[k := p[k].(foreignPopped := true)], stack, n - 1, token);
      }
    }
  }

  lemma {:induction false} TopLike(o: seq<OpenTag>, p: seq<OpenTag>, stack: seq<nat>, tag: string)
    requires Twins(o, p) && ValidStack(o, stack) && ValidStack(p, stack)
    ensures TopWithTag(o, stack, tag) == TopWithTag(p, stack, tag)
    decreases |stack|
  {
    if stack != [] && o[stack[|stack| - 1]].tag != tag {
      TopLike(o, p, stack[..|stack| - 1], tag);
    }
  }

  lemma CloseLike(st: Scan, st': Scan, d: int, pos: nat, from: nat, from': nat, to: nat, to': nat)
    returns (r: Scan, r': Scan)
    requires Mirror(st, st', d) && pos < |st.stack| && to' == to + d
    ensures r == CloseAt(st, pos, from, to) && r' == CloseAt(st', pos, from', to') && Mirror(r, r', d)
  {
    r, r' := CloseAt(st, pos, from, to), CloseAt(st', pos, from', to');
  }

  lemma CloseNamedLike(st: Scan, st': Scan, d: int, name: string, lt: nat, lt': nat, to: nat, to': nat)
    returns (r: Scan, r': Scan)
    requires Mirror(st, st', d) && to' == to + d
    ensures r == CloseNamed(st, name, lt, to) && r' == CloseNamed(st', name, lt', to') && Mirror(r, r', d)
  {
    TopLike(st.opens, st'.opens, st.stack, name);
    var pos := TopWithTag(st.opens, st.stack, name);
    if pos >= 0 {
      r, r' := CloseLike(st, st', d, pos, lt, lt', to, to');
    } else {
      r, r' := st.(i := to), st'.(i := to');
    }
  }

  /** Both scans stand at a `<`, the texts from there are alike, and the turn ends before they part. */
  predicate AtTwinLt(st: Scan, st': Scan, d: int, t: string, t': string, r: nat) {
    Mirror(st, st', d) && NamesAreText(st.opens) && t != [] && t' != [] && Alike(t, t', r) && r >= 1
  }

  /** `q` is the scan behind an end tag called `name` that ends at `to`. */
  predicate EndsNamed(q: Scan, st: Scan, name: string, to: nat)
    requires ValidStack(st.opens, st.stack)
  {
    var st1 := st.(opens := PoppedBy(st, name));
    q == if BreakOnly(st, name) then st1.(i := to) else CloseNamed(st1, name, st.i, to)
  }

  lemma NamedEndIs(st: Scan, t: string, name: string, n: nat, q: Scan)
    ensures ValidStack(st.opens, st.stack) && t != [] && EndName(t) == Found(name) && EndTagLen(t, name) == Found(n) &&
            EndsNamed(q, st, name, st.i + n) ==>
            q == LookedUpEnd(st, st.i, t)
  {
  }

  lemma LookedUpEnds(st: Scan, t: string, name: string, n: nat)
    requires ValidStack(st.opens, st.stack) && t != [] && EndName(t) == Found(name) && EndTagLen(t, name) == Found(n)
    ensures LookedUpEnd(st, st.i, t).i == st.i + n
  {
  }

  lemma LookedUpNothing(st: Scan, t: string)
    requires ValidStack(st.opens, st.stack) && t != [] && EndName(t).Absent?
    ensures LookedUpEnd(st, st.i, t) == st.(i := st.i + 1)
  {
  }

  lemma EndsLike(st: Scan, st': Scan, d: int, name: string, to: nat, to': nat) returns (r: Scan, r': Scan)
    requires Mirror(st, st', d) && to' == to + d
    ensures EndsNamed(r, st, name, to) && EndsNamed(r', st', name, to') && Mirror(r, r', d)
  {
    PopLike(st.opens, st'.opens, st.stack, |st.stack|, name);
    var st1, st1' := st.(opens := PoppedBy(st, name)), st'.(opens := PoppedBy(st', name));
    if st.stack != [] {
      SameNamespace(Top(st), Top(st'), name);
    }
    if BreakOnly(st, name) {
      r, r' := st1.(i := to), st1'.(i := to');
    } else {
      r, r' := CloseNamedLike(st1, st1', d, name, st.i, st'.i, to, to');
    }
  }

  lemma NamedEndLike(st: Scan, st': Scan, d: int, t: string, t': string, name: string, n: nat)
    returns (r: Scan, r': Scan)
    requires Mirror(st, st', d) && t != [] && t' != [] && EndName(t) == EndName(t') == Found(name)
    requires EndTagLen(t, name) == EndTagLen(t', name) == Found(n)
    ensures r == LookedUpEnd(st, st.i, t) && r' == LookedUpEnd(st', st'.i, t') && Mirror(r, r', d)
  {
    r, r' := EndsLike(st, st', d, name, st.i + n, st'.i + n);
    NamedEndIs(st, t, name, n, r);
    NamedEndIs(st', t', name, n, r');
  }

  lemma LookedUpLike(st: Scan, st': Scan, d: int, t: string, t': string, r: nat) returns (q: Scan, q': Scan)
    requires AtTwinLt(st, st', d, t, t', r) && LookedUpEnd(st, st.i, t).i <= st.i + r
    ensures q == LookedUpEnd(st, st.i, t) && q' == LookedUpEnd(st', st'.i, t') && Mirror(q, q', d)
  {
    EndNameLike(t, t', r);
    if EndName(t).Absent? {
      LookedUpNothing(st, t);
      LookedUpNothing(st', t');
      q, q' := st.(i := st.i + 1), st'.(i := st'.i + 1);
    } else {
      var name := EndName(t).value;
      EndNameMatches(t);
      var n := EndTagLen(t, name).value;
      LookedUpEnds(st, t, name, n);
      EndTagLike(t, t', name, r);
      q, q' := NamedEndLike(st, st', d, t, t', name, n);
    }
  }

  lemma EndTagStepLike(st: Scan, st': Scan, d: int, t: string, t': string, r: nat) returns (q: Scan, q': Scan)
    requires AtTwinLt(st, st', d, t, t', r) && EndTagStep(st, st.i, t).i <= st.i + r
    ensures q == EndTagStep(st, st.i, t) && q' == EndTagStep(st', st'.i, t') && Mirror(q, q', d)
  {
    if st.stack != [] {
      EndTagLike(t, t', Top(st).tag, r);
    }
    if st.stack != [] && EndTagLen(t, Top(st).tag).Found? {
      var n := EndTagLen(t, Top(st).tag).value;
      q, q' := CloseLike(st, st', d, |st.stack| - 1, st.i, st'.i, st.i + n, st'.i + n);
    } else {
      q, q' := LookedUpLike(st, st', d, t, t', r);
    }
  }

  /** Reading depends on the text from the position on only. */
  lemma {:induction false} ReadSuffix(x: string, y: string, k: nat, k': nat, s: TagState)
    requires k <= |x| && k' <= |y| && x[k..] == y[k'..]
    ensures Read(x, k, s).Unterminated? <==> Read(y, k', s).Unterminated?
    decreases |x| - k
  {
    assert |x[k..]| == |y[k'..]|;
    if k < |x| {
      assert x[k] == x[k..][0] == y[k'..][0] == y[k'];
      assert x[k + 1..] == x[k..][1..] == y[k'..][1..] == y[k' + 1..];
      match Consume(s, x[k])
      case Emitted(_) =>
      case In(u) => ReadSuffix(x, y, k + 1, k' + 1, u);
    }
  }

  /** A turn that adds no tag. */
  lemma PlainStepLike(x: string, y: string, st: Scan, st': Scan, d: int, r: nat, enc: HtmlEncoding)
    returns (q: Scan, q': Scan)
    requires st.i < |x| && st'.i < |y| && x[st.i] == '<' && y[st'.i] == '<'
    requires AtTwinLt(st, st', d, x[st.i..], y[st'.i..], r)
    requires
      var n := StepAt(x, st, st.i, x[st.i..], enc);
      |n.opens| == |st.opens| && n.i <= st.i + r
    ensures q == StepAt(x, st, st.i, x[st.i..], enc) && q' == StepAt(y, st', st'.i, y[st'.i..], enc) && Mirror(q, q', d)
  {
    var t, t' := x[st.i..], y[st'.i..];
    AlikeChars(t, t', r);
    CommentLike(t, t', r);
    ProbeLike(t, t', r);
    if CommentLen(t).Found? {
      q, q' := st.(i := st.i + CommentLen(t).value), st'.(i := st'.i + CommentLen(t).value);
    } else if |t| > 1 && t[1] == '/' {
      q, q' := EndTagStepLike(st, st', d, t, t', r);
    } else if (|t| > 1 && (t[1] == '!' || t[1] == '?')) || Probe(t).Absent? {
      q, q' := st.(i := st.i + 1), st'.(i := st'.i + 1);
    } else {
      NoTagAdded(x, st, enc);
      assert t == t';
      assert x[st.i + 1..] == t[1..] == t'[1..] == y[st'.i + 1..];
      ReadSuffix(x, y, st.i + 1, st'.i + 1, TagName);
      q, q' := st.(i := |x|), st'.(i := |y|);
    }
  }

  lemma NoTagAdded(x: string, st: Scan, enc: HtmlEncoding)
    requires st.i < |x| && x[st.i] == '<' && ValidStack(st.opens, st.stack)
    requires |StepAt(x, st, st.i, x[st.i..], enc).opens| == |st.opens|
    requires
      var t := x[st.i..];
      CommentLen(t).Absent? && !(|t| > 1 && (t[1] == '/' || t[1] == '!' || t[1] == '?')) && Probe(t).Found?
    ensures Read(x, st.i + 1, TagName).Unterminated? && StepAt(x, st, st.i, x[st.i..], enc).i == |x|
  {
    if Read(x, st.i + 1, TagName).Exit? {
      NameInsideTag(x, st.i);
    }
  }

  // ----- a turn that adds a tag

  lemma PlacedLike(st: Scan, st': Scan, d: int, tag: string, a: string, a': string)
    requires Mirror(st, st', d) && (ForeignBreakout(tag, a) <==> ForeignBreakout(tag, a'))
    ensures Placed(st, tag, a).0 == Placed(st', tag, a').0 && Twins(Placed(st, tag, a).1, Placed(st', tag, a').1)
  {
    if st.stack != [] {
      SameNamespace(Top(st), Top(st'), tag);
      PopLike(st.opens, st'.opens, st.stack, |st.stack|, tag);
    }
  }

  lemma PushLike(o: seq<OpenTag>, p: seq<OpenTag>, a: OpenTag, b: OpenTag)
    requires Twins(o, p) && Twin(a, b)
    ensures Twins(o + [a], p + [b])
  {
  }

  /** Behind the new tags `a` and `b`, which are `d` characters apart. */
  lemma EnteredLike(x: string, y: string, st: Scan, st': Scan, a: OpenTag, b: OpenTag, d: int, r: nat)
    returns (q: Scan, q': Scan)
    requires ValidStack(st.opens, st.stack) && ValidStack(st'.opens, st'.stack) && st.stack == st'.stack
    requires Twins(st.opens, st'.opens) && Twin(a, b) && IsTagText(a.tag)
    requires a.openEnd <= |x| && b.openEnd <= |y| && b.openEnd == a.openEnd + d
    requires StaysOpen(a.tag, a.ns, a.attrs) <==> StaysOpen(b.tag, b.ns, b.attrs)
    requires Alike(x[a.openEnd..], y[b.openEnd..], r) && Entered(x, st, a).i <= a.openEnd + r
    ensures q == Entered(x, st, a) && q' == Entered(y, st', b) && Mirror(q, q', d)
  {
    q, q' := Entered(x, st, a), Entered(y, st', b);
    if a.ns == Html && IsRawText(a.tag) {
      RawCloseLike(x[a.openEnd..], y[b.openEnd..], a.tag, 0, r);
      match RawClose(x[a.openEnd..], a.tag, 0)
      case Absent => PushLike(st.opens, st'.opens, a, b);
      case Found(c) =>
        PushLike(st.opens, st'.opens, a.(closeStart := a.openEnd + c.0, closeEnd := a.openEnd + c.1),
                 b.(closeStart := b.openEnd + c.0, closeEnd := b.openEnd + c.1));
    } else {
      PushLike(st.opens, st'.opens, a, b);
    }
  }
}

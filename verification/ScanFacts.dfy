/** Facts about every scan: its elements form a laminar family, and found tags never move. */
module ScanFacts {
  import opened TagSyntax
  import opened TagMachine
  import opened Scanner

  /** Every element's positions are in order and inside a document of length `n`. */
  predicate InOrder(o: seq<OpenTag>, n: nat) {
    forall k :: 0 <= k < |o| ==> o[k].start < o[k].openEnd <= o[k].closeStart <= o[k].closeEnd <= n
  }

  /** Tags appear in document order, one behind the other. */
  predicate Ascending(o: seq<OpenTag>) {
    forall j, k :: 0 <= j < k < |o| ==> o[j].openEnd <= o[k].start
  }

  /** Any two elements are nested or disjoint. */
  predicate NestedOrDisjoint(o: seq<OpenTag>) {
    forall j, k :: 0 <= j < k < |o| ==> o[j].closeEnd <= o[k].start || o[k].closeEnd <= o[j].closeEnd
  }

  /** Open elements have no end yet, and nothing that started before one of them reaches into it. */
  predicate OpenBelow(o: seq<OpenTag>, stack: seq<nat>)
    requires ValidStack(o, stack)
  {
    && (forall p :: 0 <= p < |stack| ==> o[stack[p]].closeEnd == o[stack[p]].openEnd)
    && (forall p, j :: 0 <= p < |stack| && 0 <= j < stack[p] ==> o[j].closeEnd <= o[stack[p]].start)
  }

  predicate Laminar(st: Scan) {
    && ValidStack(st.opens, st.stack)
    && InOrder(st.opens, st.i) && Ascending(st.opens) && NestedOrDisjoint(st.opens)
    && OpenBelow(st.opens, st.stack)
  }

  // ----- what one step can do

  /** One turn marks some elements as popped and then moves on, ends an element, or adds a tag. */
  datatype Change = Advance | Close(pos: nat, from: nat) | Add(open: OpenTag, push: bool)

  /** `o` with some elements marked as popped. */
  predicate Marked(o: seq<OpenTag>, r: seq<OpenTag>) {
    |r| == |o| && forall k :: 0 <= k < |o| ==> r[k] == o[k].(foreignPopped := r[k].foreignPopped)
  }

  /** The change fits the scan `st` and ends at position `i`. */
  predicate Fits(st: Scan, change: Change, i: nat) {
    match change
    case Advance => true
    case Close(pos, from) => pos < |st.stack| && st.i <= from < i
    case Add(o, push) =>
      st.i <= o.start < o.openEnd <= o.closeStart <= o.closeEnd <= i && (push ==> o.closeEnd == o.openEnd)
  }

  function Perform(st: Scan, change: Change, i: nat): Scan
    requires ValidStack(st.opens, st.stack) && Fits(st, change, i)
  {
    match change
    case Advance => st.(i := i)
    case Close(pos, from) => CloseAt(st, pos, from, i)
    case Add(o, push) => Scan(i, st.opens + [o], if push then st.stack + [|st.opens|] else st.stack)
  }

  lemma NamedEndShape(st: Scan, lt: nat, to: nat, name: string) returns (marked: seq<OpenTag>, change: Change)
    requires ValidStack(st.opens, st.stack) && st.i <= lt < to
    ensures Marked(st.opens, marked) && Fits(st, change, to)
    ensures NamedEndStep(st, lt, to, name) == Perform(st.(opens := marked), change, to)
  {
    marked := PoppedBy(st, name);
    var pos := TopWithTag(marked, st.stack, name);
    change := if BreakOnly(st, name) || pos < 0 then Advance else Close(pos, lt);
  }

  lemma LookedUpShape(st: Scan, lt: nat, t: string) returns (marked: seq<OpenTag>, change: Change, i: nat)
    requires ValidStack(st.opens, st.stack) && st.i <= lt && t != []
    ensures Marked(st.opens, marked) && Fits(st, change, i)
    ensures LookedUpEnd(st, lt, t) == Perform(st.(opens := marked), change, i)
  {
    if EndName(t).Absent? || EndTagLen(t, EndName(t).value).Absent? {
      marked, change, i := st.opens, Advance, lt + 1;
    } else {
      i := lt + EndTagLen(t, EndName(t).value).value;
      marked, change := NamedEndShape(st, lt, i, EndName(t).value);
    }
  }

  lemma EndTagShape(st: Scan, lt: nat, t: string) returns (marked: seq<OpenTag>, change: Change, i: nat)
    requires ValidStack(st.opens, st.stack) && st.i <= lt && t != []
    ensures Marked(st.opens, marked) && Fits(st, change, i)
    ensures EndTagStep(st, lt, t) == Perform(st.(opens := marked), change, i)
  {
    if st.stack != [] && EndTagLen(t, Top(st).tag).Found? {
      marked, change, i := st.opens, Close(|st.stack| - 1, lt), lt + EndTagLen(t, Top(st).tag).value;
    } else {
      marked, change, i := LookedUpShape(st, lt, t);
    }
  }

  lemma EnteredShape(s: string, st: Scan, open: OpenTag) returns (change: Change, i: nat)
    requires ValidStack(st.opens, st.stack)
    requires st.i <= open.start < open.openEnd == open.closeStart == open.closeEnd <= |s|
    ensures Fits(st, change, i) && Entered(s, st, open) == Perform(st, change, i)
    ensures change.Add? && change.open == open.(closeStart := change.open.closeStart, closeEnd := change.open.closeEnd)
  {
    if open.ns == Html && IsRawText(open.tag) {
      match RawClose(s[open.openEnd..], open.tag, 0)
      case Absent => change, i := Add(open, false), |s|;
      case Found(r) =>
        change := Add(open.(closeStart := open.openEnd + r.0, closeEnd := open.openEnd + r.1), false);
        i := open.openEnd + r.1;
    } else {
      change, i := Add(open, StaysOpen(open.tag, open.ns, open.attrs)), open.openEnd;
    }
  }

  lemma OpenShape(s: string, st: Scan, lt: nat, ne: nat, openEnd: nat, enc: HtmlEncoding)
    returns (marked: seq<OpenTag>, change: Change, i: nat)
    requires ValidStack(st.opens, st.stack) && st.i <= lt && 2 <= ne && lt + ne < openEnd <= |s|
    ensures Marked(st.opens, marked) && Fits(st, change, i)
    ensures OpenStep(s, st, lt, ne, openEnd, enc) == Perform(st.(opens := marked), change, i)
  {
    var (st1, open) := Landing(s, st, lt, ne, openEnd, enc);
    marked := st1.opens;
    change, i := EnteredShape(s, st1, open);
  }

  lemma StepAtShape(s: string, st: Scan, lt: nat, t: string, enc: HtmlEncoding)
    returns (marked: seq<OpenTag>, change: Change, i: nat)
    requires st.i == lt < |s| && t == s[lt..] && t[0] == '<' && ValidStack(st.opens, st.stack)
    ensures lt < i <= |s| && Marked(st.opens, marked) && Fits(st, change, i)
    ensures StepAt(s, st, lt, t, enc) == Perform(st.(opens := marked), change, i)
  {
    marked, change, i := st.opens, Advance, StepAt(s, st, lt, t, enc).i;
    if CommentLen(t).Found? {
    } else if |t| > 1 && t[1] == '/' {
      marked, change, i := EndTagShape(st, lt, t);
    } else if |t| > 1 && (t[1] == '!' || t[1] == '?') {
    } else if Probe(t).Found? && Read(s, lt + 1, TagName).Exit? {
      NameInsideTag(s, lt);
      marked, change, i := OpenShape(s, st, lt, Probe(t).value, Read(s, lt + 1, TagName).end, enc);
    }
  }

  lemma StepShape(s: string, st: Scan, enc: HtmlEncoding) returns (marked: seq<OpenTag>, change: Change, i: nat)
    requires st.i < |s| && ValidStack(st.opens, st.stack)
    ensures st.i < i <= |s| && Marked(st.opens, marked) && Fits(st, change, i)
    ensures Step(s, st, enc) == Perform(st.(opens := marked), change, i)
  {
    var lt := CharAt(s, '<', st.i);
    if lt == |s| {
      marked, change, i := st.opens, Advance, |s|;
    } else {
      marked, change, i := StepAtShape(s, st.(i := lt), lt, s[lt..], enc);
    }
  }

  // ----- the laminar family

  lemma MarkedLaminar(st: Scan, o: seq<OpenTag>)
    requires Laminar(st) && Marked(st.opens, o)
    ensures Laminar(st.(opens := o))
  {
    assert forall k :: 0 <= k < |o| ==>
      o[k].start == st.opens[k].start && o[k].openEnd == st.opens[k].openEnd &&
      o[k].closeStart == st.opens[k].closeStart && o[k].closeEnd == st.opens[k].closeEnd;
  }

  lemma CloseLaminar(st: Scan, pos: nat, from: nat, to: nat)
    requires Laminar(st) && pos < |st.stack| && st.i <= from < to
    ensures Laminar(CloseAt(st, pos, from, to))
  {
    var r := CloseAt(st, pos, from, to);
    var c := st.stack[pos];
    assert forall k :: 0 <= k < |st.opens| && k != c ==> r.opens[k] == st.opens[k];
    forall p, j | 0 <= p < |r.stack| && 0 <= j < r.stack[p] ensures r.opens[j].closeEnd <= r.opens[r.stack[p]].start {
      assert r.stack[p] == st.stack[p] && st.stack[p] < st.stack[pos];
    }
  }

  lemma AppendLaminar(st: Scan, o: OpenTag, i: nat)
    requires Laminar(st) && st.i <= o.start < o.openEnd <= o.closeStart <= o.closeEnd <= i
    ensures Laminar(Scan(i, st.opens + [o], st.stack))
  {
    var r := st.opens + [o];
    assert forall k :: 0 <= k < |st.opens| ==> r[k] == st.opens[k];
    assert r[|st.opens|] == o;
  }

  /** The newest tag may be pushed while its element has no end. */
  lemma PushLaminar(st: Scan)
    requires Laminar(st) && st.opens != []
    requires
      var k := |st.opens| - 1;
      && st.opens[k].closeEnd == st.opens[k].openEnd
      && (forall p :: 0 <= p < |st.stack| ==> st.stack[p] < k)
      && (forall j :: 0 <= j < k ==> st.opens[j].closeEnd <= st.opens[k].start)
    ensures Laminar(st.(stack := st.stack + [|st.opens| - 1]))
  {
    var r := st.stack + [|st.opens| - 1];
    assert forall p :: 0 <= p < |st.stack| ==> r[p] == st.stack[p];
    assert ValidStack(st.opens, r);
  }

  lemma PerformLaminar(st: Scan, change: Change, i: nat)
    requires Laminar(st) && Fits(st, change, i) && st.i <= i
    ensures Laminar(Perform(st, change, i))
  {
    match change
    case Advance =>
    case Close(pos, from) => CloseLaminar(st, pos, from, i);
    case Add(o, push) =>
      AppendLaminar(st, o, i);
      if push {
        PushLaminar(Scan(i, st.opens + [o], st.stack));
      }
  }

  lemma {:induction false} FinishLaminar(s: string, st: Scan, enc: HtmlEncoding)
    requires st.i <= |s| && Laminar(st)
    ensures Laminar(Finish(s, st, enc)) && Finish(s, st, enc).i == |s|
    decreases |s| - st.i
  {
    if st.i < |s| {
      var marked, change, i := StepShape(s, st, enc);
      MarkedLaminar(st, marked);
      PerformLaminar(st.(opens := marked), change, i);
      FinishLaminar(s, Step(s, st, enc), enc);
    }
  }

  /** On every input the elements found form a laminar family inside the document. */
  lemma ElementsAreLaminar(s: string, enc: HtmlEncoding)
    ensures var o := OpenTags(s, enc); InOrder(o, |s|) && Ascending(o) && NestedOrDisjoint(o)
  {
    FinishLaminar(s, Scan(0, [], []), enc);
  }
}

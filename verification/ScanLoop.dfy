/** The scanning loop as the program runs it: a stack of open elements threaded by tag, so that an end
    tag finds its element without a search (internal/core/stamp.go, scanOpenTagsWithStats). */
module ScanLoop {
  import opened AsciiText
  import opened TagSyntax
  import opened TagMachine
  import opened Scanner

  // ----- the threaded index

  /** The highest position holding `tag`, or -1: a search from the top. */
  function LastOf(names: seq<string>, tag: string): (r: int)
    ensures -1 <= r < |names|
    ensures r >= 0 ==> names[r] == tag
  {
    if names == [] then -1
    else if names[|names| - 1] == tag then |names| - 1
    else LastOf(names[..|names| - 1], tag)
  }

  function Entry(top: map<string, int>, tag: string): int {
    if tag in top then top[tag] else -1
  }

  /** Every stack position names the next lower one of its tag. */
  predicate Linked(names: seq<string>, prev: seq<int>) {
    |prev| == |names| &&
    (names == [] ||
     var pos := |names| - 1;
     prev[pos] == LastOf(names[..pos], names[pos]) && Linked(names[..pos], prev[..pos]))
  }

  /** The index stands for the search: the entry of a tag is its highest stack position. */
  ghost predicate Indexed(names: seq<string>, top: map<string, int>) {
    forall tag :: Entry(top, tag) == LastOf(names, tag)
  }

  lemma PushIndexed(names: seq<string>, top: map<string, int>, tag: string)
    requires Indexed(names, top)
    ensures Indexed(names + [tag], top[tag := |names|])
  {
    forall x ensures Entry(top[tag := |names|], x) == LastOf(names + [tag], x) {
      assert (names + [tag])[..|names|] == names;
      assert Entry(top, x) == LastOf(names, x);
    }
  }

  lemma PushLinked(names: seq<string>, prev: seq<int>, tag: string)
    requires Linked(names, prev)
    ensures Linked(names + [tag], prev + [LastOf(names, tag)])
  {
    assert (names + [tag])[..|names|] == names && (prev + [LastOf(names, tag)])[..|prev|] == prev;
  }

  lemma PopIndexed(names: seq<string>, prev: seq<int>, top: map<string, int>)
    requires names != [] && Linked(names, prev) && Indexed(names, top)
    ensures Indexed(names[..|names| - 1], top[names[|names| - 1] := prev[|names| - 1]])
  {
    var pos := |names| - 1;
    forall x ensures Entry(top[names[pos] := prev[pos]], x) == LastOf(names[..pos], x) {
      assert Entry(top, x) == LastOf(names, x);
    }
  }

  class TagStack {
    var stack: seq<nat>
    var names: seq<string> // the tags of the open elements; the program reads them from its tags
    var stackTagPrev: seq<int>
    var stackTopByTag: map<string, int>
    var stackOps: nat
    ghost var pushes: nat

    ghost predicate Valid()
      reads this
    {
      |stack| == |names| && Linked(names, stackTagPrev) && Indexed(names, stackTopByTag) &&
      stackOps + |stack| == 2 * pushes
    }

    constructor ()
      ensures Valid() && stack == [] && names == [] && pushes == 0
    {
      stack, names, stackTagPrev, stackTopByTag, stackOps, pushes := [], [], [], map[], 0, 0;
    }

    method Pop()
      requires Valid() && stack != []
      modifies this
      ensures Valid() && stack == old(stack)[..|old(stack)| - 1] && names == old(names)[..|old(stack)| - 1]
      ensures pushes == old(pushes)
    {
      PopIndexed(names, stackTagPrev, stackTopByTag);
      var pos := |stack| - 1;
      stackTopByTag := stackTopByTag[names[pos] := stackTagPrev[pos]];
      stack, names := stack[..pos], names[..pos];
      stackTagPrev := stackTagPrev[..pos];
      stackOps := stackOps + 1;
    }

    method PopStack(newLen: nat)
      requires Valid() && newLen <= |stack|
      modifies this
      ensures Valid() && stack == old(stack)[..newLen] && names == old(names)[..newLen]
      ensures pushes == old(pushes)
    {
      while |stack| > newLen
        invariant Valid() && newLen <= |stack| <= |old(stack)| && pushes == old(pushes)
        invariant stack == old(stack)[..|stack|] && names == old(names)[..|stack|]
      {
        Pop();
      }
    }

    method Push(idx: nat, tag: string)
      requires Valid()
      modifies this
      ensures Valid() && stack == old(stack) + [idx] && names == old(names) + [tag]
      ensures pushes == old(pushes) + 1
    {
      PushIndexed(names, stackTopByTag, tag);
      PushLinked(names, stackTagPrev, tag);
      assert Entry(stackTopByTag, tag) == LastOf(names, tag);
      var previous := if tag in stackTopByTag then stackTopByTag[tag] else -1;
      stack, names := stack + [idx], names + [tag];
      stackTagPrev := stackTagPrev + [previous];
      stackTopByTag := stackTopByTag[tag := |stack| - 1];
      stackOps := stackOps + 1;
      pushes := pushes + 1;
    }

    method Find(tag: string) returns (pos: int)
      requires Valid()
      ensures pos == LastOf(names, tag)
    {
      assert Entry(stackTopByTag, tag) == LastOf(names, tag);
      pos := if tag in stackTopByTag then stackTopByTag[tag] else -1;
    }
  }

  // ----- the index and the tags

  /** `names` are the tags of the open elements. */
  predicate Names(opens: seq<OpenTag>, stack: seq<nat>, names: seq<string>) {
    |names| == |stack| && forall p :: 0 <= p < |stack| ==> stack[p] < |opens| && opens[stack[p]].tag == names[p]
  }

  lemma {:induction false} SearchByName(opens: seq<OpenTag>, stack: seq<nat>, names: seq<string>, tag: string)
    requires Names(opens, stack, names)
    ensures TopWithTag(opens, stack, tag) == LastOf(names, tag)
  {
    if stack != [] {
      SearchByName(opens, stack[..|stack| - 1], names[..|names| - 1], tag);
    }
  }

  /** The tag stack `ts` over `opens` is the scan `st`. */
  ghost predicate Holds(ts: TagStack, opens: seq<OpenTag>, st: Scan)
    reads ts
  {
    && ts.Valid() && ts.pushes <= |opens|
    && opens == st.opens && ts.stack == st.stack && ValidStack(opens, ts.stack) && Names(opens, ts.stack, ts.names)
  }

  method PopForeignElements(opens: seq<OpenTag>, stack: seq<nat>, token: string) returns (r: seq<OpenTag>, popped: bool)
    requires ValidStack(opens, stack)
    ensures r == PopForeign(opens, stack, |stack|, token)
    ensures popped <==> stack != [] && ChildNamespace(opens[stack[|stack| - 1]], token) != Html
  {
    r, popped := opens, false;
    var pos := |stack|;
    while pos > 0 && ChildNamespace(r[stack[pos - 1]], token) != Html
      invariant 0 <= pos <= |stack| && |r| == |opens|
      invariant forall q :: 0 <= q < pos ==> r[stack[q]] == opens[stack[q]]
      invariant PopForeign(r, stack, pos, token) == PopForeign(opens, stack, |stack|, token)
      invariant popped <==> pos < |stack|
      invariant popped ==> ChildNamespace(opens[stack[|stack| - 1]], token) != Html
    {
      var k := stack[pos - 1];
      r := r[k := r[k].(foreignPopped := true)];
      popped := true;
      pos := pos - 1;
    }
  }

  method Close(ts: TagStack, opens: seq<OpenTag>, pos: nat, lt: nat, closeEnd: nat, ghost st: Scan)
    returns (r: seq<OpenTag>, ghost next: Scan)
    requires Holds(ts, opens, st) && pos < |ts.stack|
    modifies ts
    ensures Holds(ts, r, next) && next == CloseAt(st, pos, lt, closeEnd)
  {
    var idx := ts.stack[pos];
    r := opens[idx := opens[idx].(closeStart := lt, closeEnd := closeEnd)];
    ts.PopStack(pos);
    next := CloseAt(st, pos, lt, closeEnd);
  }

  lemma MarkedHolds(ts: TagStack, opens: seq<OpenTag>, st: Scan, r: seq<OpenTag>)
    requires Holds(ts, opens, st) && |r| == |opens|
    requires forall k :: 0 <= k < |opens| ==> r[k] == opens[k].(foreignPopped := r[k].foreignPopped)
    ensures Holds(ts, r, st.(opens := r))
  {
  }

  method CloseInnermost(ts: TagStack, opens: seq<OpenTag>, lt: nat, closeEnd: nat, closeTag: string, ghost st: Scan)
    returns (r: seq<OpenTag>, ghost next: Scan)
    requires Holds(ts, opens, st)
    modifies ts
    ensures Holds(ts, r, next) && next == CloseNamed(st, closeTag, lt, closeEnd)
  {
    var pos := ts.Find(closeTag);
    SearchByName(opens, ts.stack, ts.names, closeTag);
    if pos >= 0 {
      r, next := Close(ts, opens, pos, lt, closeEnd, st);
    } else {
      r, next := opens, st.(i := closeEnd);
    }
  }

  method NamedEnd(ts: TagStack, opens: seq<OpenTag>, lt: nat, closeEnd: nat, closeTag: string, ghost st: Scan)
    returns (r: seq<OpenTag>, ghost next: Scan)
    requires Holds(ts, opens, st)
    modifies ts
    ensures Holds(ts, r, next) && next == NamedEndStep(st, lt, closeEnd, closeTag)
  {
    r := opens;
    var popped := false;
    if closeTag == "p" || closeTag == "br" {
      r, popped := PopForeignElements(opens, ts.stack, closeTag);
    }
    assert r == PoppedBy(st, closeTag) && (popped && closeTag == "br" <==> BreakOnly(st, closeTag));
    MarkedHolds(ts, opens, st, r);
    if popped && closeTag == "br" {
      next := st.(opens := r).(i := closeEnd);
    } else {
      r, next := CloseInnermost(ts, r, lt, closeEnd, closeTag, st.(opens := r));
    }
  }

  method LookUpEnd(ts: TagStack, opens: seq<OpenTag>, s: string, lt: nat, ghost st: Scan)
    returns (r: seq<OpenTag>, i: nat, ghost next: Scan)
    requires Holds(ts, opens, st) && lt < |s|
    modifies ts
    ensures Holds(ts, r, next) && next == LookedUpEnd(st, lt, s[lt..]) && i == next.i
  {
    var closeTag, named := EndTagName(s, lt);
    if !named {
      return opens, lt + 1, st.(i := lt + 1);
    }
    var closeEnd, ok := EndTagBoundary(s, lt, closeTag);
    if !ok {
      return opens, lt + 1, st.(i := lt + 1);
    }
    r, next := NamedEnd(ts, opens, lt, closeEnd, closeTag, st);
    i := closeEnd;
  }

  /** An end tag at `lt`; also returns where scanning goes on. */
  method EndTag(ts: TagStack, opens: seq<OpenTag>, s: string, lt: nat, ghost st: Scan)
    returns (r: seq<OpenTag>, i: nat, ghost next: Scan)
    requires Holds(ts, opens, st) && lt < |s|
    modifies ts
    ensures Holds(ts, r, next) && next == EndTagStep(st, lt, s[lt..]) && i == next.i
  {
    var innermost, closeEnd := false, lt;
    if |ts.stack| > 0 {
      closeEnd, innermost := EndTagBoundary(s, lt, opens[ts.stack[|ts.stack| - 1]].tag);
    }
    if innermost {
      r, next := Close(ts, opens, |ts.stack| - 1, lt, closeEnd, st);
      i := closeEnd;
    } else {
      r, i, next := LookUpEnd(ts, opens, s, lt, st);
    }
  }

  /** The new tag's namespace, and the tags with what its breakout pops. */
  method Place(opens: seq<OpenTag>, stack: seq<nat>, tag: string, attrs: string, ghost st: Scan)
    returns (ns: Namespace, r: seq<OpenTag>)
    requires ValidStack(opens, stack) && st.opens == opens && st.stack == stack
    ensures (ns, r) == Placed(st, tag, attrs)
  {
    ns, r := RootNamespace(tag), opens;
    if |stack| > 0 {
      ns := ChildNamespace(opens[stack[|stack| - 1]], tag);
      if ns != Html && ForeignBreakout(tag, attrs) {
        var popped;
        r, popped := PopForeignElements(opens, stack, tag);
        ns := Html;
      }
    }
  }

  /** The new tag, pushed when it may stay open. */
  method Append(ts: TagStack, opens: seq<OpenTag>, open: OpenTag, push: bool, i: nat, ghost st: Scan)
    returns (r: seq<OpenTag>, ghost next: Scan)
    requires Holds(ts, opens, st)
    modifies ts
    ensures Holds(ts, r, next)
    ensures next == Scan(i, st.opens + [open], if push then st.stack + [|st.opens|] else st.stack)
  {
    r := opens + [open];
    if push {
      ts.Push(|opens|, open.tag);
    }
    next := Scan(i, st.opens + [open], if push then st.stack + [|st.opens|] else st.stack);
  }

  /** A raw-text element is pushed, ended and popped in one turn. */
  method EnterRawText(ts: TagStack, opens: seq<OpenTag>, s: string, open: OpenTag, ghost st: Scan)
    returns (r: seq<OpenTag>, i: nat, ghost next: Scan)
    requires Holds(ts, opens, st) && open.openEnd == open.closeStart == open.closeEnd <= |s|
    requires open.ns == Html && IsRawText(open.tag)
    modifies ts
    ensures Holds(ts, r, next) && next == Entered(s, st, open) && i == next.i
  {
    var idx := |opens|;
    r, next := Append(ts, opens, open, true, open.openEnd, st);
    var closeStart, closeEnd := RawTextCloseBoundary(s, open.tag, open.openEnd);
    if closeEnd < 0 {
      closeEnd := |s|;
    } else {
      r := r[idx := r[idx].(closeStart := closeStart, closeEnd := closeEnd)];
      assert r == opens + [open.(closeStart := closeStart, closeEnd := closeEnd)];
    }
    i := closeEnd;
    if |ts.stack| > 0 && ts.stack[|ts.stack| - 1] == idx {
      ts.PopStack(|ts.stack| - 1);
    }
    assert ts.stack == st.stack;
    next := RawEntered(s, st, open, closeStart, closeEnd, r);
    HoldsBehind(ts, st, r, next);
  }

  /** A raw-text element with its end as the program finds it: `closeEnd` is the end of the text when there is none. */
  lemma RawEntered(s: string, st: Scan, open: OpenTag, closeStart: int, closeEnd: nat, r: seq<OpenTag>)
    returns (next: Scan)
    requires ValidStack(st.opens, st.stack) && open.openEnd == open.closeStart == open.closeEnd <= |s|
    requires open.ns == Html && IsRawText(open.tag)
    requires
      match RawClose(s[open.openEnd..], open.tag, 0)
      case Absent => closeEnd == |s| && r == st.opens + [open]
      case Found(c) =>
        && closeStart == open.openEnd + c.0 && closeEnd == open.openEnd + c.1
        && r == st.opens + [open.(closeStart := closeStart, closeEnd := closeEnd)]
    ensures next == Entered(s, st, open) == Scan(closeEnd, r, st.stack)
  {
    next := Entered(s, st, open);
  }

  /** One more tag that is not on the stack. */
  lemma HoldsBehind(ts: TagStack, st: Scan, r: seq<OpenTag>, next: Scan)
    requires ts.Valid() && ts.pushes <= |r| && ts.stack == st.stack == next.stack && r == next.opens
    requires ValidStack(st.opens, st.stack) && Names(st.opens, st.stack, ts.names)
    requires |r| == |st.opens| + 1 && forall k :: 0 <= k < |st.opens| ==> r[k] == st.opens[k]
    ensures Holds(ts, r, next)
  {
  }

  method Enter(ts: TagStack, opens: seq<OpenTag>, s: string, open: OpenTag, ghost st: Scan)
    returns (r: seq<OpenTag>, i: nat, ghost next: Scan)
    requires Holds(ts, opens, st) && open.openEnd == open.closeStart == open.closeEnd <= |s|
    modifies ts
    ensures Holds(ts, r, next) && next == Entered(s, st, open) && i == next.i
  {
    if open.ns == Html && IsRawText(open.tag) {
      r, i, next := EnterRawText(ts, opens, s, open, st);
    } else {
      i := open.openEnd;
      r, next := Append(ts, opens, open, StaysOpen(open.tag, open.ns, open.attrs), i, st);
    }
  }

  lemma Opened(s: string, st: Scan, lt: nat, ne: nat, openEnd: nat, enc: HtmlEncoding, ns: Namespace,
               placed: seq<OpenTag>, open: OpenTag)
    requires ValidStack(st.opens, st.stack) && st.i == lt && 2 <= ne && lt + ne < openEnd <= |s|
    requires (ns, placed) == Placed(st, Lower(s[lt + 1..lt + ne]), s[lt + ne..openEnd - 1])
    requires open == NewTag(s, lt, ne, openEnd, ns, enc)
    ensures |placed| == |st.opens| && ValidStack(placed, st.stack)
    ensures forall k :: 0 <= k < |placed| ==> placed[k] == st.opens[k].(foreignPopped := placed[k].foreignPopped)
    ensures open.openEnd == open.closeStart == open.closeEnd == openEnd
    ensures OpenStep(s, st, lt, ne, openEnd, enc) == Entered(s, st.(opens := placed), open)
  {
    assert Landing(s, st, lt, ne, openEnd, enc) == (st.(opens := placed), open);
  }

  method OpenElement(ts: TagStack, opens: seq<OpenTag>, s: string, lt: nat, ne: nat, openEnd: nat, enc: HtmlEncoding,
                     ghost st: Scan)
    returns (r: seq<OpenTag>, i: nat, ghost next: Scan)
    requires Holds(ts, opens, st) && st.i == lt && 2 <= ne && lt + ne < openEnd <= |s|
    modifies ts
    ensures Holds(ts, r, next) && next == OpenStep(s, st, lt, ne, openEnd, enc) && i == next.i
  {
    var ns, placed := Place(opens, ts.stack, Lower(s[lt + 1..lt + ne]), s[lt + ne..openEnd - 1], st);
    var open := NewTag(s, lt, ne, openEnd, ns, enc);
    Opened(s, st, lt, ne, openEnd, enc, ns, placed, open);
    MarkedHolds(ts, opens, st, placed);
    r, i, next := Enter(ts, placed, s, open, st.(opens := placed));
  }

  /** One turn of the loop at the `<` at `lt`. */
  method TurnAt(ts: TagStack, opens: seq<OpenTag>, s: string, lt: nat, enc: HtmlEncoding, ghost st: Scan)
    returns (r: seq<OpenTag>, i: nat, ghost next: Scan)
    requires Holds(ts, opens, st) && st.i == lt < |s| && s[lt] == '<'
    modifies ts
    ensures Holds(ts, r, next) && next == StepAt(s, st, lt, s[lt..], enc) && i == next.i
  {
    r := opens;
    var ce := CommentEnd(s, lt);
    if ce >= 0 {
      i := ce;
    } else if lt + 1 < |s| && s[lt + 1] == '/' {
      r, i, next := EndTag(ts, opens, s, lt, st);
      return;
    } else if lt + 1 < |s| && (s[lt + 1] == '!' || s[lt + 1] == '?') {
      i := lt + 1;
    } else {
      var ne, ok := ProbeOpenTagName(s, lt);
      i := lt + 1;
      if ok {
        var openEnd := AttrAwareOpenTagEnd(s, lt);
        if openEnd >= 0 {
          NameInsideTag(s, lt);
          r, i, next := OpenElement(ts, opens, s, lt, ne, openEnd, enc, st);
          return;
        }
        i := |s|;
      }
    }
    next := st.(i := i);
  }

  /** The threaded scan finds exactly what the linear search finds, in at most two stack operations a tag. */
  method ScanOpenTags(s: string, enc: HtmlEncoding) returns (opens: seq<OpenTag>, stackOps: nat)
    ensures opens == OpenTags(s, enc)
    ensures stackOps <= 2 * |opens|
  {
    var ts := new TagStack();
    ghost var st := Scan(0, [], []);
    var i := 0;
    opens := [];
    while i < |s|
      invariant 0 <= i == st.i <= |s| && fresh(ts) && Holds(ts, opens, st)
      invariant Finish(s, st, enc) == Finish(s, Scan(0, [], []), enc)
    {
      ghost var next := Step(s, st, enc);
      var lt := IndexByte(s, '<', i);
      CharAtIs(s, '<', i, lt);
      if lt == |s| {
        i := |s|;
      } else {
        ghost var turned;
        opens, i, turned := TurnAt(ts, opens, s, lt, enc, st.(i := lt));
      }
      st := next;
    }
    stackOps := ts.stackOps;
  }
}

/** The structural scanner over a whole document (internal/core/stamp.go, scanOpenTagsWithStats): a
    specification that searches the stack of open elements linearly, and the facts about its steps. */
module Scanner {
  import opened AsciiText
  import opened TagSyntax
  import opened AttrText
  import opened TagMachine

  datatype Namespace = Html | Svg | MathML

  /** One real open tag: where it and its element end, and what the namespace rules need of it. */
  datatype OpenTag = OpenTag(
    start: nat,
    openEnd: nat,
    closeStart: nat,
    closeEnd: nat,
    tag: string,
    origTag: string,
    attrs: string,
    ns: Namespace,
    annotationHtml: bool,
    foreignPopped: bool)

  /** Whether a (still encoded) attribute value names an HTML encoding; decoding entities is left open. */
  type HtmlEncoding = string -> bool

  // ----- tag predicates

  predicate IsVoid(tag: string) {
    tag in {"area", "base", "br", "col", "embed", "hr", "img", "input", "link", "meta", "param",
            "source", "track", "wbr"}
  }

  predicate IsRawText(tag: string) {
    tag == "script" || tag == "style" || tag == "textarea" || tag == "title"
  }

  predicate OneOf(tag: string, names: seq<string>) {
    names != [] && (tag == names[0] || OneOf(tag, names[1..]))
  }

  const BREAKOUT_TAGS: seq<string> :=
           ["b", "big", "blockquote", "body", "br", "center", "code", "dd", "div", "dl", "dt",
            "em", "embed", "h1", "h2", "h3", "h4", "h5", "h6", "head", "hr", "i", "img",
            "li", "listing", "menu", "meta", "nobr", "ol", "p", "pre", "ruby", "s", "small",
            "span", "strong", "strike", "sub", "sup", "table", "tt", "u", "ul", "var"]

  /** Start tags that the HTML parser reprocesses outside foreign content. */
  predicate ForeignBreakout(tag: string, attrs: string) {
    OneOf(tag, BREAKOUT_TAGS) ||
    (tag == "font" &&
     (AttrValue(attrs, "color", 0).Found? || AttrValue(attrs, "face", 0).Found? || AttrValue(attrs, "size", 0).Found?))
  }

  predicate AnnotationHtml(tag: string, ns: Namespace, attrs: string, enc: HtmlEncoding) {
    ns == MathML && tag == "annotation-xml" &&
    AttrValue(attrs, "encoding", 0).Found? && enc(AttrValue(attrs, "encoding", 0).value)
  }

  function RootNamespace(tag: string): Namespace {
    if tag == "svg" then Svg else if tag == "math" then MathML else Html
  }

  /** Whether a child of `parent` is parsed by the HTML rules before its own name is looked at. */
  predicate HtmlInside(parent: OpenTag, child: string) {
    match parent.ns
    case Html => true
    case Svg => parent.tag == "foreignobject" || parent.tag == "desc" || parent.tag == "title"
    case MathML =>
      if parent.tag == "mi" || parent.tag == "mo" || parent.tag == "mn" || parent.tag == "ms" || parent.tag == "mtext"
      then child != "mglyph" && child != "malignmark"
      else parent.tag == "annotation-xml" && parent.annotationHtml
  }

  /** namespaceForChild: the integration-point rules. */
  function ChildNamespace(parent: OpenTag, child: string): Namespace {
    if parent.foreignPopped then RootNamespace(child)
    else if parent.ns.MathML? && parent.tag == "annotation-xml" && child == "svg" then Svg
    else if HtmlInside(parent, child) then RootNamespace(child)
    else parent.ns
  }

  // ----- scanning states

  /** The scan at position `i`: the tags found and the stack of open elements, as indices into them. */
  datatype Scan = Scan(i: nat, opens: seq<OpenTag>, stack: seq<nat>)

  predicate ValidStack(opens: seq<OpenTag>, stack: seq<nat>) {
    && (forall p :: 0 <= p < |stack| ==> stack[p] < |opens|)
    && (forall p, q :: 0 <= p < q < |stack| ==> stack[p] < stack[q])
  }

  /** The highest stack position holding `tag`, or -1: a search from the top. */
  function TopWithTag(opens: seq<OpenTag>, stack: seq<nat>, tag: string): (r: int)
    requires forall p :: 0 <= p < |stack| ==> stack[p] < |opens|
    ensures -1 <= r < |stack|
    ensures r >= 0 ==> opens[stack[r]].tag == tag
    ensures forall p :: r < p < |stack| ==> opens[stack[p]].tag != tag
  {
    if stack == [] then -1
    else if opens[stack[|stack| - 1]].tag == tag then |stack| - 1
    else TopWithTag(opens, stack[..|stack| - 1], tag)
  }

  /** popForeign over the lowest `n` stack positions: mark the foreign elements on top of them. */
  function PopForeign(opens: seq<OpenTag>, stack: seq<nat>, n: nat, token: string): (r: seq<OpenTag>)
    requires ValidStack(opens, stack) && n <= |stack|
    ensures |r| == |opens|
    ensures forall k :: 0 <= k < |opens| ==> r[k] == opens[k].(foreignPopped := r[k].foreignPopped)
    decreases n
  {
    if n == 0 || ChildNamespace(opens[stack[n - 1]], token) == Html then opens
    else
      var k := stack[n - 1];
      PopForeign(opens[k := opens[k].(foreignPopped := true)], stack, n - 1, token)
  }

  /** The element at stack position `pos` ends with the end tag from `from` to `to`. */
  function CloseAt(st: Scan, pos: nat, from: nat, to: nat): (r: Scan)
    requires ValidStack(st.opens, st.stack) && pos < |st.stack|
    ensures ValidStack(r.opens, r.stack) && r.i == to
  {
    var k := st.stack[pos];
    Scan(to, st.opens[k := st.opens[k].(closeStart := from, closeEnd := to)], st.stack[..pos])
  }

  function Top(st: Scan): OpenTag
    requires ValidStack(st.opens, st.stack) && st.stack != []
  {
    st.opens[st.stack[|st.stack| - 1]]
  }

  /** What an end tag pops from foreign content before it is looked up. */
  function PoppedBy(st: Scan, name: string): (r: seq<OpenTag>)
    requires ValidStack(st.opens, st.stack)
    ensures |r| == |st.opens|
    ensures forall k :: 0 <= k < |st.opens| ==> r[k] == st.opens[k].(foreignPopped := r[k].foreignPopped)
  {
    if name == "p" || name == "br" then PopForeign(st.opens, st.stack, |st.stack|, name) else st.opens
  }

  /** A `</br>` that popped something closes nothing. */
  predicate BreakOnly(st: Scan, name: string)
    requires ValidStack(st.opens, st.stack)
  {
    name == "br" && st.stack != [] && ChildNamespace(Top(st), name) != Html
  }

  /** The innermost open element named `name`, if any, ends with the end tag from `lt` to `to`. */
  function CloseNamed(st: Scan, name: string, lt: nat, to: nat): (r: Scan)
    requires ValidStack(st.opens, st.stack)
    ensures ValidStack(r.opens, r.stack) && r.i == to
  {
    var pos := TopWithTag(st.opens, st.stack, name);
    if pos < 0 then st.(i := to) else CloseAt(st, pos, lt, to)
  }

  /** The end tag named `name` from `lt` to `to`, which does not simply close the innermost element. */
  function NamedEndStep(st: Scan, lt: nat, to: nat, name: string): (r: Scan)
    requires ValidStack(st.opens, st.stack)
    ensures ValidStack(r.opens, r.stack) && r.i == to
  {
    var st1 := st.(opens := PoppedBy(st, name));
    if BreakOnly(st, name) then st1.(i := to) else CloseNamed(st1, name, lt, to)
  }

  /** An end tag at `lt` that is not the innermost element's; `t` is the text from there. */
  function LookedUpEnd(st: Scan, lt: nat, t: string): (r: Scan)
    requires ValidStack(st.opens, st.stack) && t != []
    ensures ValidStack(r.opens, r.stack) && lt < r.i <= lt + |t|
  {
    if EndName(t).Absent? || EndTagLen(t, EndName(t).value).Absent? then st.(i := lt + 1)
    else NamedEndStep(st, lt, lt + EndTagLen(t, EndName(t).value).value, EndName(t).value)
  }

  /** An end tag at `lt`. */
  function EndTagStep(st: Scan, lt: nat, t: string): (r: Scan)
    requires ValidStack(st.opens, st.stack) && t != []
    ensures ValidStack(r.opens, r.stack) && lt < r.i <= lt + |t|
  {
    if st.stack != [] && EndTagLen(t, Top(st).tag).Found? then
      CloseAt(st, |st.stack| - 1, lt, lt + EndTagLen(t, Top(st).tag).value)
    else LookedUpEnd(st, lt, t)
  }

  /** The namespace an open tag is parsed in, and the tags with what its breakout pops. */
  function Placed(st: Scan, tag: string, attrs: string): (r: (Namespace, seq<OpenTag>))
    requires ValidStack(st.opens, st.stack)
    ensures |r.1| == |st.opens|
    ensures forall k :: 0 <= k < |st.opens| ==> r.1[k] == st.opens[k].(foreignPopped := r.1[k].foreignPopped)
  {
    if st.stack == [] then (RootNamespace(tag), st.opens)
    else
      var ns := ChildNamespace(Top(st), tag);
      if ns != Html && ForeignBreakout(tag, attrs) then (Html, PopForeign(st.opens, st.stack, |st.stack|, tag))
      else (ns, st.opens)
  }

  predicate StaysOpen(tag: string, ns: Namespace, attrs: string) {
    if ns == Html then !IsVoid(tag) else !SelfCloses(attrs)
  }

  /** The scan behind a new tag: a raw-text element runs to its end tag, any other may stay open. */
  function Entered(s: string, st: Scan, open: OpenTag): (r: Scan)
    requires ValidStack(st.opens, st.stack) && open.openEnd <= |s|
    ensures ValidStack(r.opens, r.stack) && open.openEnd <= r.i <= |s|
  {
    var openEnd := open.openEnd;
    if open.ns == Html && IsRawText(open.tag) then
      match RawClose(s[openEnd..], open.tag, 0)
      case Absent => Scan(|s|, st.opens + [open], st.stack)
      case Found(r) =>
        Scan(openEnd + r.1, st.opens + [open.(closeStart := openEnd + r.0, closeEnd := openEnd + r.1)], st.stack)
    else
      Scan(openEnd, st.opens + [open],
           if StaysOpen(open.tag, open.ns, open.attrs) then st.stack + [|st.opens|] else st.stack)
  }

  function NewTag(s: string, lt: nat, ne: nat, openEnd: nat, ns: Namespace, enc: HtmlEncoding): (r: OpenTag)
    requires 2 <= ne && lt + ne < openEnd <= |s|
    ensures r.start == lt && r.openEnd == r.closeStart == r.closeEnd == openEnd
    ensures r.origTag == s[lt + 1..lt + ne] && r.attrs == s[lt + ne..openEnd - 1] && r.tag == Lower(r.origTag)
    ensures r.ns == ns && !r.foreignPopped
  {
    var origTag, attrs := s[lt + 1..lt + ne], s[lt + ne..openEnd - 1];
    OpenTag(lt, openEnd, openEnd, openEnd, Lower(origTag), origTag, attrs, ns,
            AnnotationHtml(Lower(origTag), ns, attrs, enc), false)
  }

  /** A complete open tag at `lt` whose name ends at lt + ne and which ends at `openEnd`: the scan with
      what its breakout pops, and the tag. */
  function Landing(s: string, st: Scan, lt: nat, ne: nat, openEnd: nat, enc: HtmlEncoding): (r: (Scan, OpenTag))
    requires ValidStack(st.opens, st.stack)
    requires 2 <= ne && lt + ne < openEnd <= |s|
    ensures |r.0.opens| == |st.opens| && r.0 == Scan(st.i, r.0.opens, st.stack)
    ensures forall k :: 0 <= k < |st.opens| ==>
            r.0.opens[k] == st.opens[k].(foreignPopped := r.0.opens[k].foreignPopped)
    ensures r.1.start == lt && r.1.openEnd == r.1.closeStart == r.1.closeEnd == openEnd
  {
    var (ns, opens) := Placed(st, Lower(s[lt + 1..lt + ne]), s[lt + ne..openEnd - 1]);
    (Scan(st.i, opens, st.stack), NewTag(s, lt, ne, openEnd, ns, enc))
  }

  function OpenStep(s: string, st: Scan, lt: nat, ne: nat, openEnd: nat, enc: HtmlEncoding): (r: Scan)
    requires ValidStack(st.opens, st.stack)
    requires 2 <= ne && lt + ne < openEnd <= |s|
    ensures ValidStack(r.opens, r.stack) && lt < r.i <= |s|
  {
    var (st1, open) := Landing(s, st, lt, ne, openEnd, enc);
    Entered(s, st1, open)
  }

  /** One turn of the scanning loop. */
  function Step(s: string, st: Scan, enc: HtmlEncoding): (r: Scan)
    requires st.i < |s| && ValidStack(st.opens, st.stack)
    ensures ValidStack(r.opens, r.stack) && st.i < r.i <= |s|
  {
    var lt := CharAt(s, '<', st.i);
    if lt == |s| then st.(i := |s|) else StepAt(s, st.(i := lt), lt, s[lt..], enc)
  }

  /** One turn at the `<` at `lt`; `t` is the text from there. */
  function StepAt(s: string, st: Scan, lt: nat, t: string, enc: HtmlEncoding): (r: Scan)
    requires st.i == lt < |s| && t == s[lt..] && t[0] == '<' && ValidStack(st.opens, st.stack)
    ensures ValidStack(r.opens, r.stack) && lt < r.i <= |s|
  {
    if CommentLen(t).Found? then st.(i := lt + CommentLen(t).value)
    else if |t| > 1 && t[1] == '/' then EndTagStep(st, lt, t)
    else if |t| > 1 && (t[1] == '!' || t[1] == '?') then st.(i := lt + 1)
    else if Probe(t).Absent? then st.(i := lt + 1)
    else
      match Read(s, lt + 1, TagName)
      case Unterminated => st.(i := |s|)
      case Exit(end, _) =>
        assert lt + Probe(t).value < end by { NameInsideTag(s, lt); }
        OpenStep(s, st, lt, Probe(t).value, end, enc)
  }

  lemma {:induction false} NameKeepsTagName(p: string)
    requires forall j :: 0 <= j < |p| ==> IsNameChar(p[j])
    ensures Feed(TagName, p) == At(TagName)
  {
    if p != [] {
      Direct(TagName, p[0]);
      NameKeepsTagName(p[1..]);
    }
  }

  /** The tag ends behind its name. */
  lemma NameInsideTag(s: string, lt: nat)
    requires lt < |s| && Probe(s[lt..]).Found? && Read(s, lt + 1, TagName).Exit?
    ensures lt + Probe(s[lt..]).value < Read(s, lt + 1, TagName).end
    ensures Read(s, lt + 1, TagName) == Read(s, lt + Probe(s[lt..]).value, TagName)
  {
    var t := s[lt..];
    var ne := Probe(t).value;
    var name := s[lt + 1..lt + ne];
    forall j | 0 <= j < |name| ensures IsNameChar(name[j]) {
      assert name[j] == t[j + 1];
    }
    NameKeepsTagName(name);
    ReadOver(s, lt + 1, lt + ne, TagName, TagName);
  }

  /** The scan run to the end of the document. */
  function Finish(s: string, st: Scan, enc: HtmlEncoding): Scan
    requires st.i <= |s| && ValidStack(st.opens, st.stack)
    decreases |s| - st.i
  {
    if st.i == |s| then st
    else Finish(s, Step(s, st, enc), enc)
  }

  function OpenTags(s: string, enc: HtmlEncoding): seq<OpenTag> {
    Finish(s, Scan(0, [], []), enc).opens
  }
}

/** Stamping a document with aids and stripping it again (internal/core/stamp.go, stripAllAIDs and stampAids). */
module Stamper {
  import opened Wrappers
  import opened AttrText
  import opened Scanner
  import opened ScanEdit
  import opened ScanReplace
  import C = CommentTypes

  // ----- stripping a document

  /** The attribute text stripping leaves: a slash that comes to light must not become a self-close marker. */
  function CleanAttrs(o: OpenTag): string {
    var c := Strip(o.attrs);
    if c != o.attrs && !SelfCloses(o.attrs) && SelfCloses(c) && (o.ns != Html || IsVoid(o.tag)) then c + " " else c
  }

  function Cleans(o: seq<OpenTag>): (n: seq<string>)
    ensures |n| == |o| && forall k :: 0 <= k < |o| ==> n[k] == CleanAttrs(o[k])
  {
    seq(|o|, k requires 0 <= k < |o| => CleanAttrs(o[k]))
  }

  function StripAll(html: string, enc: HtmlEncoding): string {
    ScannedTagsFit(html, enc);
    var o := OpenTags(html, enc);
    Replaced(html, o, Cleans(o))
  }

  // ----- aids

  /** The content hashes: of an element's tag, inner text and attributes, and of a salted base text. */
  datatype Hasher = Hasher(aid: (string, string, string) -> string, salted: (string, nat) -> string)

  /** What the stamper takes from outside: entity decoding, the opt-in test, the hashes and the headings. */
  datatype Env = Env(enc: HtmlEncoding, optIn: string -> bool, hasher: Hasher, heading: (string, nat) -> Option<string>)

  const MAX_SALTS: nat := 0x1_0000

  /** The first salted hash from `seed` on that differs from the pinned aid. */
  function Salted(base: string, pinned: string, seed: nat, last: nat, hash: (string, nat) -> string): string
    decreases if seed <= last then last + 1 - seed else 0
  {
    if seed > last then pinned + "0"
    else if hash(base, seed) != pinned then hash(base, seed)
    else Salted(base, pinned, seed + 1, last, hash)
  }

  function SaltAway(tag: string, inner: string, attrs: string, pinned: string, h: Hasher): string {
    var aid := h.aid(tag, inner, attrs);
    if pinned == "" || aid != pinned then aid
    else Salted(tag + "|" + attrs + "|" + inner, pinned, 1, MAX_SALTS, h.salted)
  }

  // ----- which elements are stamped, and how

  const STAMPABLE_TAGS: seq<string> :=
    ["img", "svg", "canvas", "video", "pre", "figure", "iframe", "section", "aside", "blockquote", "table", "details"]

  predicate IsVoidElement(o: OpenTag) {
    o.ns == Html && IsVoid(o.tag)
  }

  predicate ForeignSelfClose(o: OpenTag) {
    o.ns != Html && SelfCloses(o.attrs)
  }

  /** The text between the tags of an element that has any. */
  function Inner(y: string, o: OpenTag): string {
    if !IsVoidElement(o) && !ForeignSelfClose(o) && o.openEnd <= o.closeStart <= |y|
       then y[o.openEnd..o.closeStart] else ""
  }

  function ElementEnd(o: OpenTag): nat {
    if IsVoidElement(o) || ForeignSelfClose(o) then o.openEnd else o.closeEnd
  }

  /** Whether the aid goes in front of a self-close marker. */
  predicate TrueSelfClose(o: OpenTag) {
    if IsVoidElement(o) then SelfCloses(Strip(o.attrs)) else ElementEnd(o) == o.openEnd && ForeignSelfClose(o)
  }

  /** A stripped document with its tags, and the pin: the aid to keep ("" for none) and where its tag starts. */
  datatype Plan = Plan(y: string, o: seq<OpenTag>, pinned: string, at: int)

  predicate IsPinned(p: Plan, k: nat)
    requires k < |p.o|
  {
    p.pinned != "" && p.o[k].start == p.at
  }

  predicate Harvested(p: Plan, k: nat, env: Env)
    requires k < |p.o|
  {
    IsPinned(p, k) || OneOf(p.o[k].tag, STAMPABLE_TAGS) || env.optIn(p.o[k].attrs)
  }

  function AidOf(p: Plan, k: nat, env: Env): string
    requires k < |p.o|
  {
    if IsPinned(p, k) then p.pinned
    else SaltAway(p.o[k].tag, Inner(p.y, p.o[k]), Strip(p.o[k].attrs), p.pinned, env.hasher)
  }

  function NewAttrs(p: Plan, k: nat, env: Env): string
    requires k < |p.o|
  {
    if Harvested(p, k, env) then StampAttrs(Strip(p.o[k].attrs), AidOf(p, k, env), TrueSelfClose(p.o[k]))
       else p.o[k].attrs
  }

  function NewTexts(p: Plan, env: Env): (n: seq<string>)
    ensures |n| == |p.o| && forall k :: 0 <= k < |p.o| ==> n[k] == NewAttrs(p, k, env)
  {
    seq(|p.o|, k requires 0 <= k < |p.o| => NewAttrs(p, k, env))
  }

  function ArtifactOf(p: Plan, k: nat, env: Env): C.Artifact
    requires k < |p.o|
  {
    var o, aid := p.o[k], AidOf(p, k, env);
    var legacy := env.hasher.aid("iframe", "", Strip(o.attrs));
    C.Artifact(aid, o.tag, env.heading(p.y, o.start), if o.tag == "iframe" && legacy != aid then [legacy] else [])
  }

  /** The stamped tags from number `k` on, in document order. */
  function Chosen(p: Plan, k: nat, env: Env): (r: seq<nat>)
    requires k <= |p.o|
    ensures forall i :: 0 <= i < |r| ==> k <= r[i] < |p.o| && Harvested(p, r[i], env)
    ensures forall i, j :: 0 <= i < j < |r| ==> r[i] < r[j]
    ensures forall m :: k <= m < |p.o| && Harvested(p, m, env) ==> m in r
    decreases |p.o| - k
  {
    if k == |p.o| then [] else (if Harvested(p, k, env) then [k] else []) + Chosen(p, k + 1, env)
  }

  function Index(p: Plan, env: Env): (r: seq<C.Artifact>)
    ensures
      var c := Chosen(p, 0, env);
      |r| == |c| && forall i :: 0 <= i < |r| ==> r[i] == ArtifactOf(p, c[i], env)
  {
    var c := Chosen(p, 0, env);
    seq(|c|, i requires 0 <= i < |c| => ArtifactOf(p, c[i], env))
  }

  /** The first tag that starts at `at`, or -1. */
  function TagAt(o: seq<OpenTag>, at: int, k: nat): (r: int)
    requires k <= |o|
    ensures r == -1 || (k <= r < |o| && o[r].start == at)
    ensures r == -1 ==> forall j :: k <= j < |o| ==> o[j].start != at
    decreases |o| - k
  {
    if k == |o| then -1 else if o[k].start == at then k else TagAt(o, at, k + 1)
  }

  /** Where the pinned tag starts once aids are stripped: the tag of the same number, if the offset names one. */
  function PinAt(raw: seq<OpenTag>, o: seq<OpenTag>, pinned: string, at: int): int {
    var n := if pinned != "" && at >= 0 then TagAt(raw, at, 0) else -1;
    if 0 <= n < |o| then o[n].start else at
  }

  function PlanOf(raw: string, pinned: string, at: int, env: Env): Plan {
    var y := StripAll(raw, env.enc);
    var o := OpenTags(y, env.enc);
    var at' := PinAt(OpenTags(raw, env.enc), o, pinned, at);
    Plan(y, o, if at' >= 0 && TagAt(o, at', 0) >= 0 then pinned else "", at')
  }

  datatype StampResult = StampResult(html: string, aids: seq<C.Artifact>)

  function StampPlan(p: Plan, env: Env): StampResult
    requires p.o == OpenTags(p.y, env.enc)
  {
    ScannedTagsFit(p.y, env.enc);
    StampResult(Replaced(p.y, p.o, NewTexts(p, env)), Index(p, env))
  }

  /** StampAids, with the aid to pin and the offset of its tag ("" and -1 for none). */
  function Stamp(raw: string, pinned: string, at: int, env: Env): StampResult {
    StampPlan(PlanOf(raw, pinned, at, env), env)
  }
}

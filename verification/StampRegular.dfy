/** Documents whose tags follow the attribute grammar: stripping, stamping and the pin. */
module StampRegular {
  import opened TagSyntax
  import opened AttrText
  import opened AttrGrammar
  import opened AttrLists
  import opened TagMachine
  import opened Scanner
  import opened ScanEdit
  import opened ScanTwin
  import opened ScanReplace
  import opened ScanRestore
  import opened AidReading
  import opened StampText
  import opened StampLists
  import opened StripLists
  import opened Stamper
  import opened StampFacts

  /** The attribute text follows the grammar, and stripping leaves no slash glued to an unquoted value. */
  ghost predicate IsRegularText(a: string) {
    exists list, tail :: Regular(list, tail) && Safe(list, tail, false) && a == Render(list, tail)
  }

  // ----- stripping one tag

  lemma {:induction false} RegularSpace(list: seq<Attr>, t: string)
    requires Regular(list, t) && t != ""
    ensures Regular(list, t + " ")
  {
    if list == [] {
      SpacedSeparators(t, t + " ");
    } else {
      RegularSpace(list[1..], t);
      if |list| == 1 {
        assert (t + " ")[0] == t[0];
      }
    }
  }

  ghost predicate SameLookups(list: seq<Attr>, kept: seq<Attr>) {
    forall target :: target != AID_NAME ==> Lookup(kept, target) == Lookup(list, target)
  }

  /** What stripping makes of a regular attribute text. */
  lemma CleanKeeps(o: OpenTag, list: seq<Attr>, tail: string) returns (kept: seq<Attr>, end: string)
    requires Regular(list, tail) && Safe(list, tail, false) && o.attrs == Render(list, tail)
    ensures Regular(kept, end) && AidFree(kept) && CleanAttrs(o) == Render(kept, end)
    ensures o.ns != Html || IsVoid(o.tag) ==> (SelfCloses(CleanAttrs(o)) <==> SelfCloses(o.attrs))
    ensures SameLookups(list, kept)
  {
    kept, end := StripKeeps(list, tail);
    RegularSelfCloses(list, tail);
    RegularSelfCloses(kept, end);
    if CleanAttrs(o) != Strip(o.attrs) {
      RegularSpace(kept, end);
      RenderTail(kept, end, " ");
      end := end + " ";
      RegularSelfCloses(kept, end);
    } else if tail == "" && EndsInSlash(end) && (o.ns != Html || IsVoid(o.tag)) {
      UnlessFree(list, o, kept, end);
    }
  }

  /** A text that stripping leaves alone keeps its self-close marker. */
  lemma UnlessFree(list: seq<Attr>, o: OpenTag, kept: seq<Attr>, end: string)
    requires CleanAttrs(o) == Strip(o.attrs) == Render(kept, end) && SelfCloses(Render(kept, end))
    requires o.ns != Html || IsVoid(o.tag)
    ensures SelfCloses(o.attrs)
  {
  }

  lemma {:induction false} RenderFirst(list: seq<Attr>, tail: string)
    requires Regular(list, tail)
    ensures Render(list, tail) != "" ==> EndsName(Render(list, tail)[0])
  {
    if list != [] {
      assert Text(list[0])[0] == list[0].sep[0];
    }
  }

  lemma RegularIsAttrsText(list: seq<Attr>, tail: string)
    requires Regular(list, tail)
    ensures IsAttrsText(Render(list, tail))
  {
    var u := RegularEnds(list, tail);
    RenderFirst(list, tail);
    if InQuote(u) {
      Direct(u, '>');
    }
  }

  /** The two texts read the same at every attribute the scanner looks at. */
  predicate ReadsTheSame(a: string, b: string) {
    && AttrValue(a, "color", 0) == AttrValue(b, "color", 0) && AttrValue(a, "face", 0) == AttrValue(b, "face", 0)
    && AttrValue(a, "size", 0) == AttrValue(b, "size", 0) && AttrValue(a, "encoding", 0) == AttrValue(b, "encoding", 0)
  }

  lemma LooksAt(a: string, list: seq<Attr>, tail: string, b: string, kept: seq<Attr>, end: string, target: string)
    requires Regular(list, tail) && Regular(kept, end) && a == Render(list, tail) && b == Render(kept, end)
    requires SameLookups(list, kept) && target != AID_NAME
    ensures AttrValue(a, target, 0) == AttrValue(b, target, 0)
  {
    LookupRegular(list, tail, target);
    LookupRegular(kept, end, target);
  }

  lemma CleanReads(a: string, list: seq<Attr>, tail: string, b: string, kept: seq<Attr>, end: string)
    requires Regular(list, tail) && Regular(kept, end) && a == Render(list, tail) && b == Render(kept, end)
    requires SameLookups(list, kept)
    ensures ReadsTheSame(a, b)
  {
    TargetsAreNotAid();
    LooksAt(a, list, tail, b, kept, end, "color");
    LooksAt(a, list, tail, b, kept, end, "face");
    LooksAt(a, list, tail, b, kept, end, "size");
    LooksAt(a, list, tail, b, kept, end, "encoding");
  }

  lemma SameLooks(tag: string, ns: Namespace, a: string, b: string, enc: HtmlEncoding)
    requires ReadsTheSame(a, b)
    ensures ForeignBreakout(tag, b) <==> ForeignBreakout(tag, a)
    ensures AnnotationHtml(tag, ns, b, enc) <==> AnnotationHtml(tag, ns, a, enc)
  {
  }

  /** Stripping a regular tag changes nothing the scanner looks at, and leaves regular text without aids. */
  lemma CleanReplaces(o: OpenTag, enc: HtmlEncoding)
    requires IsRegularText(o.attrs)
    ensures Replaces(o, CleanAttrs(o), enc) && IsPlainText(CleanAttrs(o))
  {
    var list, tail :| Regular(list, tail) && Safe(list, tail, false) && o.attrs == Render(list, tail);
    var kept, end := CleanKeeps(o, list, tail);
    RegularIsAttrsText(kept, end);
    CleanReads(o.attrs, list, tail, CleanAttrs(o), kept, end);
    SameLooks(o.tag, o.ns, o.attrs, CleanAttrs(o), enc);
  }

  // ----- stripping a document

  ghost predicate IsRegularDocument(o: seq<OpenTag>) {
    forall k :: 0 <= k < |o| ==> IsRegularText(o[k].attrs)
  }

  ghost predicate IsPlainDocument(o: seq<OpenTag>) {
    forall k :: 0 <= k < |o| ==> IsPlainText(o[k].attrs)
  }

  /** Stripping a regular document keeps the number, order, names and namespaces of its tags, and leaves
      every one of them regular and without an aid. */
  lemma StripKeepsTags(html: string, enc: HtmlEncoding)
    requires IsRegularDocument(OpenTags(html, enc))
    ensures Twins(OpenTags(html, enc), OpenTags(StripAll(html, enc), enc))
    ensures IsPlainDocument(OpenTags(StripAll(html, enc), enc))
  {
    var o := OpenTags(html, enc);
    ScannedTagsFit(html, enc);
    var e := Edit(html, StripAll(html, enc), o, Cleans(o));
    forall k | 0 <= k < |o| ensures Replaces(o[k], e.n[k], enc) && IsPlainText(e.n[k]) {
      CleanReplaces(o[k], enc);
    }
    ReplacedScan(e, enc);
    var r := OpenTags(e.y, enc);
    forall k | 0 <= k < |r| ensures IsPlainText(r[k].attrs) {
      assert PlacedAt(e, r[k], k);
    }
  }

  lemma CleanShrinks(o: OpenTag)
    ensures |CleanAttrs(o)| <= |o.attrs|
    ensures if Strip(o.attrs) == o.attrs then CleanAttrs(o) == o.attrs else |CleanAttrs(o)| < |o.attrs|
  {
    StripFixed(o.attrs);
  }

  lemma StripAllShrinks(html: string, enc: HtmlEncoding, o: seq<OpenTag>, k: nat)
    requires o == OpenTags(html, enc) && k < |o| && Strip(o[k].attrs) != o[k].attrs
    ensures |StripAll(html, enc)| < |html|
  {
    ScannedTagsFit(html, enc);
    TailLength(html, o, Cleans(o), 0, 0);
    forall j | 0 <= j < |o| ensures |Cleans(o)[j]| <= |o[j].attrs| {
      CleanShrinks(o[j]);
    }
    CleanShrinks(o[k]);
    ShiftShrinks(o, Cleans(o), |o|, k);
  }

  /** A document is left alone by stripping exactly when none of its tags carries an aid. */
  lemma StripAllFixed(html: string, enc: HtmlEncoding)
    ensures StripAll(html, enc) == html <==> IsAidFree(OpenTags(html, enc))
  {
    var o := OpenTags(html, enc);
    if IsAidFree(o) {
      ScannedTagsFit(html, enc);
      SameTextsReplace(html, o, Cleans(o));
    } else {
      var k :| 0 <= k < |o| && Strip(o[k].attrs) != o[k].attrs;
      StripAllShrinks(html, enc, o, k);
    }
  }

  lemma {:induction false} ShiftShrinks(o: seq<OpenTag>, m: seq<string>, k: nat, shorter: nat)
    requires |o| == |m| && k <= |o| && shorter < |o| && forall j :: 0 <= j < |o| ==> |m[j]| <= |o[j].attrs|
    requires |m[shorter]| < |o[shorter].attrs|
    ensures Shift(o, m, k) <= 0 && (shorter < k ==> Shift(o, m, k) < 0)
  {
    if k > 0 {
      ShiftShrinks(o, m, k - 1, shorter);
    }
  }

  lemma SameTextsReplace(html: string, o: seq<OpenTag>, n: seq<string>)
    requires TagsFit(html, o) && |n| == |o| && forall k :: 0 <= k < |o| ==> n[k] == o[k].attrs
    ensures Replaced(html, o, n) == html
  {
    var k: nat, i: nat := 0, 0;
    var goal := Replaced(html, o, n);
    assert html[..0] + goal == goal;
    while k < |o|
      invariant k <= |o| && i <= |html| && (k < |o| ==> i <= AttrsAt(o[k]))
      invariant html[..i] + Tail(html, o, n, i, k) == goal
    {
      NextFits(html, o, k);
      var a, b := AttrsAt(o[k]), o[k].openEnd - 1;
      assert html[i..a] + html[a..b] == html[i..b];
      Grows(html, i, b, Tail(html, o, n, i, k), Tail(html, o, n, b, k + 1), goal);
      k, i := k + 1, b;
    }
    Whole(html, i);
  }

  // ----- stamping regular documents

  lemma PlainNeverDangles(a: string, selfClose: bool)
    requires IsPlainText(a)
    ensures Strip(a) == a && !Dangles(a, selfClose)
  {
    var list, tail :| Regular(list, tail) && AidFree(list) && a == Render(list, tail);
    RegularNeverDangles(list, tail, selfClose);
  }

  lemma PlainIsStampable(p: Plan, env: Env)
    requires p.o == OpenTags(p.y, env.enc) && HashesAreWords(env) && IsWord(p.pinned) && IsPlainDocument(p.o)
    ensures Stampable(p, env) && !SomeDangles(p, env)
  {
    forall k | 0 <= k < |p.o|
      ensures Strip(p.o[k].attrs) == p.o[k].attrs && Settled(p.o[k]) && !Dangles(p.o[k].attrs, TrueSelfClose(p.o[k]))
    {
      PlainNeverDangles(p.o[k].attrs, TrueSelfClose(p.o[k]));
    }
  }

  /** Stripping the stamped form of any regular document, pinned or not, gives the stripped document. */
  lemma RoundTrip(raw: string, pinned: string, at: int, env: Env)
    requires IsRegularDocument(OpenTags(raw, env.enc)) && HashesAreWords(env) && IsWord(pinned)
    ensures StripAll(Stamp(raw, pinned, at, env).html, env.enc) == StripAll(raw, env.enc)
  {
    StripKeepsTags(raw, env.enc);
    var p := PlanOf(raw, pinned, at, env);
    PlainIsStampable(p, env);
    StripUndoesStampAll(p, env);
  }

  /** A later stamping without the pin gives what stamping without the pin gave in the first place. */
  lemma StampAgain(raw: string, pinned: string, at: int, env: Env)
    requires StripAll(Stamp(raw, pinned, at, env).html, env.enc) == StripAll(raw, env.enc)
    ensures Stamp(Stamp(raw, pinned, at, env).html, "", -1, env) == Stamp(raw, "", -1, env)
  {
  }

  /** Stamping is idempotent, in its document and in its index. */
  lemma StampIdempotent(raw: string, env: Env)
    requires IsRegularDocument(OpenTags(raw, env.enc)) && HashesAreWords(env)
    ensures Stamp(Stamp(raw, "", -1, env).html, "", -1, env) == Stamp(raw, "", -1, env)
  {
    RoundTrip(raw, "", -1, env);
    StampAgain(raw, "", -1, env);
  }

  // ----- the pin

  lemma {:induction false} SaltAvoidsPin(
      base: string, pinned: string, seed: nat, last: nat, hash: (string, nat) -> string)
    ensures Salted(base, pinned, seed, last, hash) != pinned
    decreases if seed <= last then last + 1 - seed else 0
  {
    if seed <= last {
      SaltAvoidsPin(base, pinned, seed + 1, last, hash);
    } else {
      assert |pinned + "0"| == |pinned| + 1;
    }
  }

  /** Salting takes the first seed whose hash differs, and none when the plain hash does. */
  lemma {:induction false} SaltIsFirst(
      base: string, pinned: string, seed: nat, last: nat, hash: (string, nat) -> string) returns (s: nat)
    requires seed <= last + 1
    ensures seed <= s <= last + 1 && forall j :: seed <= j < s ==> hash(base, j) == pinned
    ensures Salted(base, pinned, seed, last, hash) == if s <= last then hash(base, s) else pinned + "0"
    ensures s <= last ==> hash(base, s) != pinned
    decreases last + 1 - seed
  {
    if seed <= last && hash(base, seed) == pinned {
      s := SaltIsFirst(base, pinned, seed + 1, last, hash);
    } else {
      s := seed;
    }
  }

  /** An active pin's aid belongs to the pinned tag alone, whatever the hashes are. */
  lemma PinIsUnique(p: Plan, k: nat, env: Env)
    requires k < |p.o| && p.pinned != ""
    ensures AidOf(p, k, env) == p.pinned <==> p.o[k].start == p.at
  {
    if p.o[k].start != p.at {
      var o := p.o[k];
      SaltAvoidsPin(o.tag + "|" + Strip(o.attrs) + "|" + Inner(p.y, o), p.pinned, 1, MAX_SALTS, env.hasher.salted);
    }
  }

  /** When the offset names tag number `m` of a regular document, that very tag is pinned in the stripped one. */
  lemma PinFollowsTag(raw: string, pinned: string, m: nat, env: Env)
    requires IsRegularDocument(OpenTags(raw, env.enc)) && pinned != "" && m < |OpenTags(raw, env.enc)|
    ensures
      var p := PlanOf(raw, pinned, OpenTags(raw, env.enc)[m].start, env);
      p.pinned == pinned && m < |p.o| && p.o[m].start == p.at && Harvested(p, m, env)
  {
    var r := OpenTags(raw, env.enc);
    var p := PlanOf(raw, pinned, r[m].start, env);
    StripKeepsTags(raw, env.enc);
    ScannedTagsFit(raw, env.enc);
    StartsDiffer(raw, r, TagAt(r, r[m].start, 0), m);
    assert p.o[m].start == p.at;
  }

  lemma StartsDiffer(x: string, o: seq<OpenTag>, i: int, j: nat)
    requires TagsFit(x, o) && 0 <= i < |o| && j < |o| && o[i].start == o[j].start
    ensures i == j
  {
    assert TagFits(x, o[i]) && TagFits(x, o[j]);
  }

  lemma OnePinnedOf(p: Plan, m: nat, env: Env) returns (i: nat)
    requires TagsFit(p.y, p.o) && p.pinned != "" && m < |p.o| && p.o[m].start == p.at
    ensures i < |Index(p, env)| && Chosen(p, 0, env)[i] == m
    ensures forall j :: 0 <= j < |Index(p, env)| ==> (Index(p, env)[j].aid == p.pinned <==> j == i)
  {
    var c := Chosen(p, 0, env);
    assert Harvested(p, m, env);
    i :| 0 <= i < |c| && c[i] == m;
    forall j | 0 <= j < |c| ensures ArtifactOf(p, c[j], env).aid == p.pinned <==> j == i {
      PinIsUnique(p, c[j], env);
      if p.o[c[j]].start == p.at {
        StartsDiffer(p.y, p.o, c[j], m);
      }
    }
  }

  /** Exactly one artifact in the index carries the pinned aid, and it is the pinned tag's. */
  lemma OnePinnedArtifact(raw: string, pinned: string, m: nat, env: Env) returns (i: nat)
    requires IsRegularDocument(OpenTags(raw, env.enc)) && pinned != "" && m < |OpenTags(raw, env.enc)|
    ensures
      var p := PlanOf(raw, pinned, OpenTags(raw, env.enc)[m].start, env);
      var r := Stamp(raw, pinned, OpenTags(raw, env.enc)[m].start, env);
      && i < |r.aids| && Chosen(p, 0, env)[i] == m
      && forall j :: 0 <= j < |r.aids| ==> (r.aids[j].aid == pinned <==> j == i)
  {
    var p := PlanOf(raw, pinned, OpenTags(raw, env.enc)[m].start, env);
    PinFollowsTag(raw, pinned, m, env);
    ScannedTagsFit(p.y, env.enc);
    i := OnePinnedOf(p, m, env);
  }

  // ----- the aids are in the document

  lemma PlainLookup(a: string, aid: string, selfClose: bool)
    requires IsPlainText(a) && IsWord(aid)
    ensures AttrValue(StampAttrs(a, aid, selfClose), AID_NAME, 0) == Found(aid) && AttrValue(a, AID_NAME, 0) == Absent
  {
    var list, tail :| Regular(list, tail) && AidFree(list) && a == Render(list, tail);
    StampLookup(list, tail, aid, selfClose, AID_NAME);
  }

  /** In the stamped document the stamped tags carry their aids, and no other tag carries one. */
  lemma StampedTagsCarryAids(raw: string, pinned: string, at: int, k: nat, env: Env)
    requires IsRegularDocument(OpenTags(raw, env.enc)) && HashesAreWords(env) && IsWord(pinned)
    requires k < |PlanOf(raw, pinned, at, env).o|
    ensures
      var p := PlanOf(raw, pinned, at, env);
      var o := OpenTags(Stamp(raw, pinned, at, env).html, env.enc);
      && |o| == |p.o| == |OpenTags(raw, env.enc)| && Twin(p.o[k], o[k])
      && AttrValue(o[k].attrs, AID_NAME, 0) == if Harvested(p, k, env) then Found(AidOf(p, k, env)) else Absent
  {
    var p := PlanOf(raw, pinned, at, env);
    StripKeepsTags(raw, env.enc);
    PlainIsStampable(p, env);
    StampedScan(p, env);
    var e := StampEdit(p, env);
    var o := OpenTags(e.y, env.enc);
    assert PlacedAt(e, o[k], k) && Twin(e.o[k], o[k]);
    PlainNeverDangles(p.o[k].attrs, false);
    AidIsWord(p, k, env);
    PlainLookup(p.o[k].attrs, AidOf(p, k, env), TrueSelfClose(p.o[k]));
  }
}

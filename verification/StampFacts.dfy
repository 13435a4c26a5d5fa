/** Stamping and stripping a document: the round trip, and what the pin is worth. */
module StampFacts {
  import opened TagSyntax
  import opened AttrText
  import opened AttrGrammar
  import opened Scanner
  import opened ScanEdit
  import opened ScanTwin
  import opened ScanReplace
  import opened ScanRestore
  import opened AidReading
  import opened StampText
  import opened StampLists
  import opened Stamper

  /** Hashes are words. */
  ghost predicate HashesAreWords(env: Env) {
    && (forall tag, inner, attrs :: IsWord(env.hasher.aid(tag, inner, attrs)))
    && (forall base, seed :: IsWord(env.hasher.salted(base, seed)))
  }

  /** Regular attribute text without aids. */
  ghost predicate IsPlainText(a: string) {
    exists list, tail :: Regular(list, tail) && AidFree(list) && a == Render(list, tail)
  }

  /** The attributes of a tag whose attributes the scanner itself looks at are regular. */
  ghost predicate Settled(o: OpenTag) {
    o.tag == "font" || o.tag == "annotation-xml" ==> IsPlainText(o.attrs)
  }

  // ----- one tag

  lemma {:induction false} SaltedIsWord(base: string, pinned: string, seed: nat, last: nat, env: Env)
    requires HashesAreWords(env) && IsWord(pinned)
    ensures IsWord(Salted(base, pinned, seed, last, env.hasher.salted))
    decreases if seed <= last then last + 1 - seed else 0
  {
    if seed <= last {
      assert IsWord(env.hasher.salted(base, seed));
      SaltedIsWord(base, pinned, seed + 1, last, env);
    } else {
      var r := pinned + "0";
      assert forall i :: 0 <= i < |r| ==> r[i] == if i < |pinned| then pinned[i] else '0';
    }
  }

  lemma AidIsWord(p: Plan, k: nat, env: Env)
    requires k < |p.o| && HashesAreWords(env) && IsWord(p.pinned)
    ensures IsWord(AidOf(p, k, env))
  {
    var o := p.o[k];
    var inner, attrs := Inner(p.y, o), Strip(o.attrs);
    assert IsWord(env.hasher.aid(o.tag, inner, attrs));
    SaltedIsWord(o.tag + "|" + attrs + "|" + inner, p.pinned, 1, MAX_SALTS, env);
  }

  /** In foreign content and on void elements the aid goes in front of every self-close marker. */
  lemma MarkerIsFound(o: OpenTag)
    requires Strip(o.attrs) == o.attrs && (o.ns != Html || IsVoid(o.tag))
    ensures TrueSelfClose(o) <==> SelfCloses(o.attrs)
  {
  }

  lemma StampFirst(a: string, aid: string, selfClose: bool)
    requires a != "" ==> EndsName(a[0])
    ensures StampAttrs(a, aid, selfClose) != "" && EndsName(StampAttrs(a, aid, selfClose)[0])
  {
    AidTextIs(aid);
  }

  lemma LooksTheSame(o: OpenTag, aid: string, selfClose: bool, target: string)
    requires IsPlainText(o.attrs) && IsWord(aid) && target != AID_NAME
    ensures AttrValue(StampAttrs(o.attrs, aid, selfClose), target, 0) == AttrValue(o.attrs, target, 0)
  {
    var list, tail :| Regular(list, tail) && AidFree(list) && o.attrs == Render(list, tail);
    StampLookup(list, tail, aid, selfClose, target);
  }

  lemma TargetsAreNotAid()
    ensures "color" != AID_NAME && "face" != AID_NAME && "size" != AID_NAME && "encoding" != AID_NAME
  {
    AidIsPlain();
    assert |"color"| == 5 && |"face"| == 4 && |"size"| == 4 && |"encoding"| == 8;
  }

  lemma BreaksOutTheSame(o: OpenTag, aid: string, selfClose: bool)
    requires Settled(o) && IsWord(aid)
    ensures ForeignBreakout(o.tag, StampAttrs(o.attrs, aid, selfClose)) <==> ForeignBreakout(o.tag, o.attrs)
  {
    if o.tag == "font" {
      TargetsAreNotAid();
      LooksTheSame(o, aid, selfClose, "color");
      LooksTheSame(o, aid, selfClose, "face");
      LooksTheSame(o, aid, selfClose, "size");
    }
  }

  lemma AnnotatesTheSame(o: OpenTag, aid: string, selfClose: bool, enc: HtmlEncoding)
    requires Settled(o) && IsWord(aid)
    ensures AnnotationHtml(o.tag, o.ns, StampAttrs(o.attrs, aid, selfClose), enc) <==>
            AnnotationHtml(o.tag, o.ns, o.attrs, enc)
  {
    if o.tag == "annotation-xml" {
      TargetsAreNotAid();
      LooksTheSame(o, aid, selfClose, "encoding");
    }
  }

  /** Stamping a tag changes nothing the scanner looks at. */
  lemma StampReplaces(x: string, o: OpenTag, aid: string, enc: HtmlEncoding)
    requires TagFits(x, o) && Strip(o.attrs) == o.attrs && Settled(o) && IsWord(aid)
    ensures Replaces(o, StampAttrs(o.attrs, aid, TrueSelfClose(o)), enc)
  {
    var sc := TrueSelfClose(o);
    StampCloses(o.attrs, aid, sc);
    StampFirst(o.attrs, aid, sc);
    StampSelfCloses(o.attrs, aid, sc);
    if o.ns != Html { MarkerIsFound(o); }
    BreaksOutTheSame(o, aid, sc);
    AnnotatesTheSame(o, aid, sc, enc);
  }

  /** Stripping a stamped tag gives back its attributes, unless its attribute text dangles. */
  lemma CleanOfStamp(o: OpenTag, aid: string, stamped: OpenTag)
    requires Strip(o.attrs) == o.attrs && IsWord(aid) && stamped.tag == o.tag && stamped.ns == o.ns
    requires stamped.attrs == StampAttrs(o.attrs, aid, TrueSelfClose(o))
    ensures CleanAttrs(stamped) == if Dangles(o.attrs, TrueSelfClose(o)) then stamped.attrs else o.attrs
  {
    var sc := TrueSelfClose(o);
    StripUndoesStamp(o.attrs, aid, sc);
    StampSelfCloses(o.attrs, aid, sc);
    if o.ns != Html || IsVoid(o.tag) { MarkerIsFound(o); }
  }

  lemma StampLengthens(a: string, aid: string, selfClose: bool)
    ensures |StampAttrs(a, aid, selfClose)| > |a|
  {
    AidTextIs(aid);
  }

  // ----- the document

  /** The document carries no aid. */
  predicate IsAidFree(o: seq<OpenTag>) {
    forall k :: 0 <= k < |o| ==> Strip(o[k].attrs) == o[k].attrs
  }

  /** A stripped document that can be stamped without changing its scan. */
  ghost predicate Stampable(p: Plan, env: Env) {
    && p.o == OpenTags(p.y, env.enc) && HashesAreWords(env) && IsWord(p.pinned) && IsAidFree(p.o)
    && forall k :: 0 <= k < |p.o| && Harvested(p, k, env) ==> Settled(p.o[k])
  }

  lemma SameReplaces(x: string, o: OpenTag, enc: HtmlEncoding)
    requires TagFits(x, o)
    ensures Replaces(o, o.attrs, enc)
  {
  }

  lemma NewAttrsReplace(p: Plan, k: nat, env: Env)
    requires Stampable(p, env) && k < |p.o| && TagFits(p.y, p.o[k])
    ensures Replaces(p.o[k], NewAttrs(p, k, env), env.enc)
  {
    if Harvested(p, k, env) {
      AidIsWord(p, k, env);
      StampReplaces(p.y, p.o[k], AidOf(p, k, env), env.enc);
    } else {
      SameReplaces(p.y, p.o[k], env.enc);
    }
  }

  /** The stamped document, its tags, and how they came about. */
  function StampEdit(p: Plan, env: Env): Edit
    requires p.o == OpenTags(p.y, env.enc)
  {
    Edit(p.y, StampPlan(p, env).html, p.o, NewTexts(p, env))
  }

  /** The scan of the stamped document finds the tags of the stripped one, in the same places but for the aids. */
  lemma StampedScan(p: Plan, env: Env)
    requires Stampable(p, env)
    ensures
      var e := StampEdit(p, env);
      Fine(e) && e.y == Replaced(e.x, e.o, e.n) && Twins(e.o, OpenTags(e.y, env.enc)) &&
        Placements(e, OpenTags(e.y, env.enc))
  {
    var e := StampEdit(p, env);
    ScannedTagsFit(p.y, env.enc);
    forall k | 0 <= k < |e.o| ensures Replaces(e.o[k], e.n[k], env.enc) {
      NewAttrsReplace(p, k, env);
    }
    ReplacedScan(e, env.enc);
  }

  /** What stripping makes of the tag number `k` of the stamped document. */
  lemma CleanOfNew(p: Plan, k: nat, stamped: OpenTag, env: Env)
    requires Stampable(p, env) && k < |p.o| && Twin(p.o[k], stamped) && stamped.attrs == NewAttrs(p, k, env)
    ensures CleanAttrs(stamped) ==
            if Harvested(p, k, env) && Dangles(p.o[k].attrs, TrueSelfClose(p.o[k])) then stamped.attrs else p.o[k].attrs
    ensures |p.o[k].attrs| <= |stamped.attrs| && (Harvested(p, k, env) ==> |p.o[k].attrs| < |stamped.attrs|)
  {
    if Harvested(p, k, env) {
      AidIsWord(p, k, env);
      CleanOfStamp(p.o[k], AidOf(p, k, env), stamped);
      StampLengthens(p.o[k].attrs, AidOf(p, k, env), TrueSelfClose(p.o[k]));
    }
  }

  /** Some stamped tag has its aid inside an unfinished value. */
  predicate SomeDangles(p: Plan, env: Env) {
    exists k :: 0 <= k < |p.o| && Harvested(p, k, env) && Dangles(p.o[k].attrs, TrueSelfClose(p.o[k]))
  }

  /** `o` are the tags of the edited document. */
  predicate Rescanned(e: Edit, o: seq<OpenTag>) {
    Fine(e) && e.y == Replaced(e.x, e.o, e.n) && TagsFit(e.y, o) && Twins(e.o, o) && Placements(e, o)
  }

  lemma CleanAt(p: Plan, e: Edit, o: seq<OpenTag>, k: nat, env: Env)
    requires Stampable(p, env) && k < |p.o| && e.o == p.o && e.n == NewTexts(p, env) && Rescanned(e, o)
    ensures k < |o| && var c := CleanAttrs(o[k]);
      && c == (if Harvested(p, k, env) && Dangles(e.o[k].attrs, TrueSelfClose(e.o[k])) then e.n[k] else e.o[k].attrs)
      && |e.o[k].attrs| <= |e.n[k]| && (Harvested(p, k, env) ==> |e.o[k].attrs| < |e.n[k]|)
  {
    assert PlacedAt(e, o[k], k) && Twin(e.o[k], o[k]);
    CleanOfNew(p, k, o[k], env);
  }

  lemma SameTexts(n: seq<string>, m: seq<string>)
    requires |n| == |m| && forall k :: 0 <= k < |n| ==> n[k] == m[k]
    ensures n == m
  {
  }

  lemma StripRestores(p: Plan, e: Edit, o: seq<OpenTag>, env: Env)
    requires Stampable(p, env) && !SomeDangles(p, env) && e.x == p.y && e.o == p.o && e.n == NewTexts(p, env) &&
             Rescanned(e, o)
    ensures Replaced(e.y, o, Cleans(o)) == p.y
  {
    forall k | 0 <= k < |o| ensures Cleans(o)[k] == Texts(e.o)[k] {
      CleanAt(p, e, o, k, env);
    }
    SameTexts(Cleans(o), Texts(e.o));
    Restores(e, o);
  }

  lemma NoneShorter(p: Plan, e: Edit, o: seq<OpenTag>, m: seq<string>, env: Env)
    requires Stampable(p, env) && e.o == p.o && e.n == NewTexts(p, env) && Rescanned(e, o) && m == Cleans(o)
    ensures forall j :: 0 <= j < |e.o| ==> |e.o[j].attrs| <= |m[j]|
  {
    forall j | 0 <= j < |o| ensures |e.o[j].attrs| <= |m[j]| {
      CleanAt(p, e, o, j, env);
    }
  }

  lemma StripLeavesAid(p: Plan, e: Edit, o: seq<OpenTag>, k: nat, env: Env)
    requires Stampable(p, env) && k < |p.o| && Harvested(p, k, env) && Dangles(p.o[k].attrs, TrueSelfClose(p.o[k]))
    requires e.x == p.y && e.o == p.o && e.n == NewTexts(p, env) && Rescanned(e, o)
    ensures Replaced(e.y, o, Cleans(o)) != p.y
  {
    var m := Cleans(o);
    NoneShorter(p, e, o, m, env);
    CleanAt(p, e, o, k, env);
    assert |m[k]| > |e.o[k].attrs|;
    NotRestored(e, o, m, k);
  }

  /** Stripping a stamped document gives back the document that was stamped, exactly when no stamped tag's
      attribute text ends in an unfinished value. */
  lemma StripUndoesStampAll(p: Plan, env: Env)
    requires Stampable(p, env)
    ensures StripAll(StampPlan(p, env).html, env.enc) == p.y <==> !SomeDangles(p, env)
  {
    var e := StampEdit(p, env);
    var o := OpenTags(e.y, env.enc);
    StampedScan(p, env);
    ScannedTagsFit(e.y, env.enc);
    if SomeDangles(p, env) {
      var k :| 0 <= k < |p.o| && Harvested(p, k, env) && Dangles(p.o[k].attrs, TrueSelfClose(p.o[k]));
      StripLeavesAid(p, e, o, k, env);
    } else {
      StripRestores(p, e, o, env);
    }
  }
}

/** Stamping one open tag and stripping it again, on every attribute text (internal/core/stamp.go). */
module StampText {
  import opened AsciiText
  import opened AttrText
  import opened TagMachine
  import opened AttrGrammar
  import opened AttrEdits
  import opened AidReading

  // ----- the stamped attribute text

  /** The aid goes behind the last attribute, in front of the separators at the end. */
  lemma InsertShape(a: string, aid: string, selfClose: bool) returns (q: string, rest: string)
    requires IsWord(aid)
    ensures q == a[..InsertAt(a, selfClose)] && a == q + rest && Stamped(q, aid, rest, StampAttrs(a, aid, selfClose))
    ensures if selfClose && SelfCloses(a) then rest != "" && rest[|rest| - 1] == '/' && AllSpace(rest[..|rest| - 1])
            else AllSpace(rest)
  {
    var stop := if selfClose && SelfCloses(a) then |a| - 1 else |a|;
    var p := InsertAt(a, selfClose);
    q, rest := a[..p], a[p..];
    forall j | 0 <= j < stop - p ensures IsSpace(rest[j]) { assert rest[j] == a[p + j]; }
    assert stop < |a| ==> rest[stop - p] == a[stop];
    assert StampAttrs(a, aid, selfClose) == q + (AidText(aid) + rest);
  }

  /** Stripping undoes stamping exactly when the aid is not put into an unfinished value. */
  lemma StripUndoesStamp(a: string, aid: string, selfClose: bool)
    requires IsWord(aid) && Strip(a) == a
    ensures Strip(StampAttrs(a, aid, selfClose)) == a <==> !Dangles(a, selfClose)
    ensures Dangles(a, selfClose) ==> Strip(StampAttrs(a, aid, selfClose)) == StampAttrs(a, aid, selfClose)
  {
    var q, rest := InsertShape(a, aid, selfClose);
    var b := StampAttrs(a, aid, selfClose);
    StripFixed(a);
    if Dangles(a, selfClose) {
      SwallowsStamp(q, aid, rest, b, 0);
      StripFixed(b);
      Front(q, aid, rest, b);
    } else {
      StripsBack(q, aid, rest, b, 0, 0);
    }
  }

  /** An attribute text that ends in `=` keeps the aid as its value. */
  lemma DanglingEquals()
    ensures Strip(" a=") == " a=" && Dangles(" a=", false)
    ensures Strip(StampAttrs(" a=", "k", false)) != " a="
  {
    var a := " a=";
    NameIs(a, 1, 2);
    SpaceIs(a, 2, 2);
    SpaceIs(a, 3, 3);
    BareIs(a, 3, 3);
    SeparatorsAre(a, 0, 1);
    assert TokenAt(a, 1) == Token(2, true, 3, 3, 3);
    assert a[1..2] == "a";
    assert |Lower("a")| == 1;
    AidIsPlain();
    assert !IsAidName(a[1..2]);
    assert TurnAt(a, 0, 0) == Past(3);
    RestIsOver(a, 3, 3);
    StripFixed(a);
    assert a[..3] == a;
    assert InsertAt(a, false) == 3;
    assert Pending(a, 0);
    StripUndoesStamp(a, "k", false);
  }

  // ----- the tag still ends where it did

  predicate InQuote(m: TagState) {
    m.DoubleQuoted? || m.SingleQuoted?
  }

  lemma {:induction false} FeedSeparators(m: TagState, p: string) returns (u: TagState)
    requires AllSeparators(p)
    ensures Feed(m, p) == At(u) && (InQuote(u) <==> InQuote(m))
    decreases |p|
  {
    u := m;
    if p != "" {
      Direct(m, p[0]);
      u := FeedSeparators(Consume(m, p[0]).state, p[1..]);
    }
  }

  lemma {:induction false} FeedUnquoted(p: string)
    requires forall i :: 0 <= i < |p| ==> !IsSpace(p[i]) && p[i] != '>'
    ensures Feed(Unquoted, p) == At(Unquoted)
    decreases |p|
  {
    if p != "" {
      Direct(Unquoted, p[0]);
      FeedUnquoted(p[1..]);
    }
  }

  /** The inserted attribute behind white space, read as an attribute of its own. */
  lemma AidReads(m: TagState, s: SlashState, aid: string) returns (u: TagState, v: SlashState)
    requires (m == BeforeAttrName && s == SBeforeAttr) || (m == AfterAttrName && s == SAfterAttrName)
    requires IsWord(aid)
    ensures Both(m, s, AID_NAME + ValueText(Quoted("", "", '"', aid)), u, v) && !InQuote(u) && TakesSlash(v)
  {
    LowerAid();
    WordHasNoQuote(aid);
    BothName(m, s, AID_NAME);
    u, v := BothValue(Quoted("", "", '"', aid));
    BothConcat(m, s, AID_NAME, AttrName, SAttrName, ValueText(Quoted("", "", '"', aid)), u, v);
  }

  lemma AidTail(aid: string) returns (t: string)
    requires IsWord(aid)
    ensures AidText(aid) == [' ', 'd'] + t && forall i :: 0 <= i < |t| ==> !IsSpace(t[i]) && t[i] != '>'
  {
    var ins := AidText(aid);
    AidTextIs(aid);
    t := ins[2..];
    assert Lies(ins, 0, ins);
    InsertedChars(ins, 0, aid);
    assert ins == [ins[0], ins[1]] + t;
  }

  /** Outside quotes the tokenizer reads the inserted attribute to its end. */
  lemma FeedAid(m: TagState, aid: string) returns (u: TagState)
    requires IsWord(aid) && !InQuote(m)
    ensures Feed(m, AidText(aid)) == At(u) && !InQuote(u)
  {
    Direct(m, ' ');
    var w := Consume(m, ' ').state;
    if m.BeforeValue? {
      var t := AidTail(aid);
      Direct(m, 'd');
      FeedUnquoted(t);
      FeedConcat(m, [' ', 'd'], t);
      FeedTwo(m, ' ', 'd', m, Unquoted);
      u := Unquoted;
    } else {
      AidTextIs(aid);
      var v;
      u, v := AidReads(w, if w.BeforeAttrName? then SBeforeAttr else SAfterAttrName, aid);
      FeedConcat(m, " ", AID_NAME + ValueText(Quoted("", "", '"', aid)));
      FeedOne(m, ' ', w);
    }
  }

  lemma FeedOne(m: TagState, c: char, u: TagState)
    requires Consume(m, c) == In(u)
    ensures Feed(m, [c]) == At(u)
  {
    assert [c][1..] == "";
  }

  lemma FeedTwo(m: TagState, c: char, d: char, u: TagState, v: TagState)
    requires Consume(m, c) == In(u) && Consume(u, d) == In(v)
    ensures Feed(m, [c, d]) == At(v)
  {
    assert [c, d][1..] == [d];
    FeedOne(u, d, v);
  }

  /** The tokenizer reads `a` as the attributes of a tag that the next `>` ends. */
  predicate Closes(a: string) {
    Feed(TagName, a).At? && !InQuote(Feed(TagName, a).state)
  }

  lemma StampCloses(a: string, aid: string, selfClose: bool)
    requires IsWord(aid) && Closes(a)
    ensures Closes(StampAttrs(a, aid, selfClose))
  {
    var q, rest := InsertShape(a, aid, selfClose);
    FeedConcat(TagName, q, rest);
    var m := Feed(TagName, q).state;
    var u0 := FeedSeparators(m, rest);
    var u1 := FeedAid(m, aid);
    var u2 := FeedSeparators(u1, rest);
    FeedConcat(m, AidText(aid), rest);
    FeedConcat(TagName, q, AidText(aid) + rest);
  }

  // ----- the self-close marker stays one

  predicate InValue(s: SlashState) {
    s.SBeforeValue? || (s.SQuoted? && !IsSpace(s.q))
  }

  lemma {:induction false} SlashQuote(p: string)
    ensures SlashFeed(SBeforeAttr, p).SQuoted? ==> InValue(SlashFeed(SBeforeAttr, p))
    decreases |p|
  {
    if p != "" {
      SlashQuote(p[..|p| - 1]);
    }
  }

  lemma {:induction false} SlashSpaces(s: SlashState, p: string)
    requires AllSpace(p)
    ensures InValue(s) ==> SlashFeed(s, p) == s
    ensures TakesSlash(s) ==> TakesSlash(SlashFeed(s, p))
    decreases |p|
  {
    if p != "" {
      SlashSpaces(s, p[..|p| - 1]);
    }
  }

  lemma SlashAid(s: SlashState, aid: string)
    requires IsWord(aid) && !s.SBeforeValue? && !s.SQuoted?
    ensures TakesSlash(SlashFeed(s, AidText(aid)))
  {
    AidTextIs(aid);
    var s1 := SlashStep(s, ' ');
    assert SlashFeed(s, " ") == s1;
    var u, v := AidReads(if s1.SBeforeAttr? then BeforeAttrName else AfterAttrName, s1, aid);
    SlashFeedConcat(s, " ", AID_NAME + ValueText(Quoted("", "", '"', aid)));
  }

  /** A marker that is taken behind `q` and white space is also taken behind an aid put between them. */
  lemma SlashBehindAid(q: string, sp: string, aid: string)
    requires IsWord(aid) && AllSpace(sp) && TakesSlash(SlashFeed(SBeforeAttr, q + sp))
    ensures TakesSlash(SlashFeed(SBeforeAttr, q + (AidText(aid) + sp)))
  {
    var s := SlashFeed(SBeforeAttr, q);
    SlashQuote(q);
    SlashFeedConcat(SBeforeAttr, q, sp);
    SlashSpaces(s, sp);
    SlashAid(s, aid);
    SlashFeedConcat(s, AidText(aid), sp);
    SlashSpaces(SlashFeed(s, AidText(aid)), sp);
    SlashFeedConcat(SBeforeAttr, q, AidText(aid) + sp);
  }

  lemma LastOfStamp(q: string, aid: string, rest: string, b: string)
    requires Stamped(q, aid, rest, b)
    ensures b != "" && b[|b| - 1] == if rest == "" then '"' else rest[|rest| - 1]
  {
    StampedFrame(q, aid, rest, b);
    InsertedChars(b, |q|, aid);
    var e := |q| + 17 + |aid|;
    if rest == "" {
      assert |b| - 1 == |q| + 16 + |aid|;
    } else {
      assert b[e + (|rest| - 1)] == rest[|rest| - 1];
    }
  }

  lemma ButLast(q: string, ins: string, rest: string, b: string)
    requires rest != "" && b == q + (ins + rest)
    ensures b[..|b| - 1] == q + (ins + rest[..|rest| - 1])
  {
  }

  /** Stamping keeps a self-close marker where it looks for one. */
  lemma StampKeepsMarker(a: string, aid: string)
    requires IsWord(aid) && SelfCloses(a)
    ensures SelfCloses(StampAttrs(a, aid, true))
  {
    var q, rest := InsertShape(a, aid, true);
    var b := StampAttrs(a, aid, true);
    LastOfStamp(q, aid, rest, b);
    ButLast(q, AidText(aid), rest, b);
    var sp := rest[..|rest| - 1];
    assert a[..|a| - 1] == q + sp;
    SlashBehindAid(q, sp, aid);
  }

  /** ... and never makes one. */
  lemma StampSelfCloses(a: string, aid: string, selfClose: bool)
    requires IsWord(aid)
    ensures SelfCloses(StampAttrs(a, aid, selfClose)) <==> selfClose && SelfCloses(a)
  {
    if selfClose && SelfCloses(a) {
      StampKeepsMarker(a, aid);
    } else {
      var q, rest := InsertShape(a, aid, selfClose);
      LastOfStamp(q, aid, rest, StampAttrs(a, aid, selfClose));
    }
  }
}

/** What stripping leaves of regular attribute text: the other attributes, each as it was. */
module StripLists {
  import opened AsciiText
  import opened AttrText
  import opened AttrGrammar
  import opened AttrLists
  import opened AttrReading
  import opened AidReading
  import opened StampLists

  /** The attributes that stay; `carry` are the slashes left over in front of them. */
  function Kept(list: seq<Attr>, carry: string): seq<Attr> {
    if list == [] then []
    else if IsAidName(list[0].name) then Kept(list[1..], carry + Core(list[0].sep))
    else [list[0].(sep := carry + list[0].sep)] + Kept(list[1..], "")
  }

  function KeptTail(list: seq<Attr>, carry: string, tail: string): string {
    if list == [] then carry + tail
    else if IsAidName(list[0].name) then KeptTail(list[1..], carry + Core(list[0].sep), tail)
    else KeptTail(list[1..], "", tail)
  }

  /** No unquoted value is left with a slash directly behind it; `bare` says that one stands in front. */
  predicate Safe(list: seq<Attr>, tail: string, bare: bool) {
    if list == [] then bare ==> SpaceOrEnd(tail)
    else if IsAidName(list[0].name) then
      var core := Core(list[0].sep);
      (bare ==> SpaceOrEnd(core)) && Safe(list[1..], tail, bare && core == "")
    else (bare ==> SpaceOrEnd(list[0].sep)) && Safe(list[1..], tail, list[0].value.Bare?)
  }

  lemma {:induction false} StrippedIsKept(list: seq<Attr>, carry: string, tail: string)
    ensures carry + Stripped(list, tail) == Render(Kept(list, carry), KeptTail(list, carry, tail))
    decreases |list|
  {
    if list != [] {
      var x, more := list[0], Stripped(list[1..], tail);
      if IsAidName(x.name) {
        StrippedIsKept(list[1..], carry + Core(x.sep), tail);
        Regroup3(carry, Core(x.sep), more);
      } else {
        StrippedIsKept(list[1..], "", tail);
        assert "" + more == more;
        KeptHead(x, carry, Kept(list[1..], ""), KeptTail(list[1..], "", tail), more);
      }
    }
  }

  lemma KeptHead(x: Attr, carry: string, kept: seq<Attr>, tail: string, more: string)
    requires more == Render(kept, tail)
    ensures carry + (Text(x) + more) == Render([x.(sep := carry + x.sep)] + kept, tail)
  {
    var y := x.(sep := carry + x.sep);
    var l := [y] + kept;
    assert l[0] == y && l[1..] == kept;
    assert carry + (x.sep + (x.name + ValueText(x.value)) + more) == (carry + x.sep) + (x.name + ValueText(x.value)) +
           more;
  }

  lemma {:induction false} KeptIsFree(list: seq<Attr>, carry: string)
    ensures AidFree(Kept(list, carry))
    decreases |list|
  {
    if list != [] {
      if IsAidName(list[0].name) {
        KeptIsFree(list[1..], carry + Core(list[0].sep));
      } else {
        KeptIsFree(list[1..], "");
      }
    }
  }

  lemma CoreSeparates(sep: string, carry: string)
    requires AllSeparators(sep) && AllSeparators(carry)
    ensures AllSeparators(carry + Core(sep)) && AllSeparators(carry + sep)
  {
  }

  lemma RegularCons(y: Attr, kept: seq<Attr>, tail: string)
    requires RegularAttr(y) && Regular(kept, tail) && (y.value.Bare? ==> SpaceOrEnd(FirstSep(kept, tail)))
    ensures Regular([y] + kept, tail)
  {
    RegularHead(y, kept, tail);
  }

  /** What is carried along stands in front of what is kept. */
  lemma {:induction false} KeptStarts(list: seq<Attr>, carry: string, tail: string)
    ensures carry <= FirstSep(Kept(list, carry), KeptTail(list, carry, tail))
    decreases |list|
  {
    if list != [] && IsAidName(list[0].name) {
      KeptStarts(list[1..], carry + Core(list[0].sep), tail);
    }
  }

  lemma {:induction false} KeptLoose(list: seq<Attr>, carry: string, tail: string)
    requires Loose(list, tail) && AllSeparators(carry)
    ensures Loose(Kept(list, carry), KeptTail(list, carry, tail))
    decreases |list|
  {
    if list == [] {
      CoreSeparates(tail, carry);
    } else {
      var x := list[0];
      LooseRegular(list, tail);
      CoreSeparates(x.sep, carry);
      if IsAidName(x.name) {
        KeptLoose(list[1..], carry + Core(x.sep), tail);
      } else {
        KeptLoose(list[1..], "", tail);
      }
    }
  }

  /** What is kept is regular exactly when no slash comes to stand behind an unquoted value. */
  lemma {:induction false} KeptRegular(list: seq<Attr>, carry: string, tail: string, bare: bool)
    requires Regular(list, tail) && Loose(list, tail) && AllSeparators(carry) && (bare ==> carry == "")
    ensures
      var kept, end := Kept(list, carry), KeptTail(list, carry, tail);
      Safe(list, tail, bare) <==> Regular(kept, end) && (bare ==> SpaceOrEnd(FirstSep(kept, end)))
    decreases |list|
  {
    if list == [] {
      CoreSeparates(tail, carry);
    } else {
      var x := list[0];
      LooseRegular(list, tail);
      CoreSeparates(x.sep, carry);
      if IsAidName(x.name) {
        KeptRegular(list[1..], carry + Core(x.sep), tail, bare && Core(x.sep) == "");
        KeptStarts(list[1..], carry + Core(x.sep), tail);
      } else {
        KeptRegular(list[1..], "", tail, x.value.Bare?);
        RegularHead(x.(sep := carry + x.sep), Kept(list[1..], ""), KeptTail(list[1..], "", tail));
      }
    }
  }

  lemma RegularHead(y: Attr, kept: seq<Attr>, tail: string)
    requires RegularAttr(y)
    ensures Regular([y] + kept, tail) <==> Regular(kept, tail) && (y.value.Bare? ==> SpaceOrEnd(FirstSep(kept, tail)))
  {
    var l := [y] + kept;
    assert l[0] == y && l[1..] == kept;
    assert kept != [] ==> l[1] == kept[0];
  }

  lemma {:induction false} RegularIsLoose(list: seq<Attr>, tail: string)
    requires Regular(list, tail)
    ensures Loose(list, tail)
  {
    if list != [] {
      RegularIsLoose(list[1..], tail);
      forall k | 0 <= k < |list| ensures RegularAttr(list[k]) {
        assert k > 0 ==> list[k] == list[1..][k - 1];
      }
    }
  }

  /** A last slash that was there stays; another can only come to light when nothing followed it. */
  lemma {:induction false} KeptTailEnds(list: seq<Attr>, carry: string, tail: string)
    ensures tail != "" ==> (EndsInSlash(KeptTail(list, carry, tail)) <==> EndsInSlash(tail))
    decreases |list|
  {
    if list != [] {
      if IsAidName(list[0].name) {
        KeptTailEnds(list[1..], carry + Core(list[0].sep), tail);
      } else {
        KeptTailEnds(list[1..], "", tail);
      }
    }
  }

  lemma {:induction false} KeptLookup(list: seq<Attr>, carry: string, target: string)
    requires target != AID_NAME
    ensures Lookup(Kept(list, carry), target) == Lookup(list, target)
    decreases |list|
  {
    if list != [] {
      if IsAidName(list[0].name) {
        KeptLookup(list[1..], carry + Core(list[0].sep), target);
      } else {
        KeptLookup(list[1..], "", target);
        var l := [list[0].(sep := carry + list[0].sep)] + Kept(list[1..], "");
        assert l[1..] == Kept(list[1..], "");
      }
    }
  }

  /** Stripping regular text leaves regular text with the same other attributes. */
  lemma StripKeeps(list: seq<Attr>, tail: string) returns (kept: seq<Attr>, end: string)
    requires Regular(list, tail) && Safe(list, tail, false)
    ensures Regular(kept, end) && AidFree(kept) && Strip(Render(list, tail)) == Render(kept, end)
    ensures tail != "" ==> (EndsInSlash(end) <==> EndsInSlash(tail))
    ensures forall target :: target != AID_NAME ==> Lookup(kept, target) == Lookup(list, target)
  {
    kept, end := Kept(list, ""), KeptTail(list, "", tail);
    StripRegular(list, tail);
    StrippedIsKept(list, "", tail);
    assert "" + Stripped(list, tail) == Stripped(list, tail);
    KeptIsFree(list, "");
    RegularIsLoose(list, tail);
    KeptRegular(list, "", tail, false);
    KeptTailEnds(list, "", tail);
    forall target | target != AID_NAME ensures Lookup(kept, target) == Lookup(list, target) {
      KeptLookup(list, "", target);
    }
  }

  lemma AName()
    ensures !IsAidName("a") && IsNameText("a")
  {
    AidIsPlain();
    assert |Lower("a")| == 1;
  }

  function BareAttr(text: string): Attr {
    Attr(" ", "a", Bare("", "", text))
  }

  lemma OneRegular(x: Attr, tail: string)
    requires RegularAttr(x) && AllSeparators(tail) && (x.value.Bare? ==> SpaceOrEnd(tail))
    ensures Regular([x], tail) && Render([x], tail) == Text(x) + tail
    ensures Stripped([x], tail) == (if IsAidName(x.name) then Core(x.sep) else Text(x)) + tail
  {
    assert [x][1..] == [];
  }

  lemma BareRegular(t: string)
    requires IsBareText(t)
    ensures RegularAttr(BareAttr(t)) && Regular([BareAttr(t)], "")
  {
    AName();
    OneRegular(BareAttr(t), "");
  }

  lemma BareTextIs(t: string)
    ensures Text(BareAttr(t)) == [' ', 'a', '='] + t
  {
    PlainValue(t);
    assert [' '] + (['a'] + (['='] + t)) == [' ', 'a', '='] + t;
  }

  lemma PlainValue(t: string)
    ensures ValueText(Bare("", "", t)) == ['='] + t
  {
    assert "" + "=" == ['='] && ['='] + "" == ['='];
  }

  lemma AidAlone(x: Attr, tail: string)
    requires AllSeparators(tail) && x == AidAttr("", "x")
    ensures Regular([x], tail)
  {
    AidAttrFits([], "", "x", tail);
    assert [] + [x] == [x];
  }

  lemma AidSays(x: Attr)
    requires x == AidAttr("", "x")
    ensures x.sep == " " && !x.value.Bare? && IsAidName(x.name)
  {
    LowerAid();
    assert "" + " " == " ";
  }

  lemma AidRegular() returns (x: Attr)
    ensures x == AidAttr("", "x") && RegularAttr(x) && !x.value.Bare? && x.sep == " " && IsAidName(x.name)
  {
    x := AidAttr("", "x");
    AidAlone(x, "/");
    AidSays(x);
    assert [x][0] == x;
  }

  lemma AidStripped(x: Attr, tail: string)
    requires x.sep == " " && IsAidName(x.name)
    ensures Stripped([x], tail) == tail
  {
    assert [x][1..] == [];
    assert Core(" ") == "";
  }

  lemma BareGrows(t: string)
    requires IsBareText(t)
    ensures IsBareText(t + "/") && Text(BareAttr(t)) + "/" == Text(BareAttr(t + "/"))
  {
    BareTextIs(t);
    var u := t + "/";
    assert forall i :: 0 <= i < |u| ==> u[i] == if i < |t| then t[i] else '/';
    BareTextIs(u);
  }

  lemma GluedRegular(v: Attr, x: Attr, tail: string)
    requires RegularAttr(v) && Regular([x], tail) && SpaceOrEnd(x.sep)
    ensures Regular([v, x], tail)
  {
    RegularCons(v, [x], tail);
    assert [v] + [x] == [v, x];
  }

  lemma GluedStripped(v: Attr, x: Attr, tail: string)
    requires !IsAidName(v.name) && Stripped([x], tail) == tail
    ensures Stripped([v, x], tail) == Text(v) + tail
  {
    assert [v, x][1..] == [x];
  }

  lemma GluedText(t: string, x: Attr)
    requires IsBareText(t) && x.sep == " " && IsAidName(x.name) && Regular([x], "/")
    ensures Regular([BareAttr(t), x], "/") && Strip(Render([BareAttr(t), x], "/")) == Render([BareAttr(t + "/")], "")
  {
    var v := BareAttr(t);
    AName();
    BareRegular(t);
    AidStripped(x, "/");
    GluedRegular(v, x, "/");
    GluedStripped(v, x, "/");
    StripRegular([v, x], "/");
    BareGrows(t);
    OneText(BareAttr(t + "/"));
  }

  lemma OneText(x: Attr)
    ensures Render([x], "") == Text(x)
  {
    assert [x][1..] == [];
  }

  /** An aid between an unquoted value and the self-close slash: stripping it makes the slash part of the value. */
  lemma GluedSlash(t: string) returns (a: string)
    requires IsBareText(t)
    ensures a == Render([BareAttr(t), AidAttr("", "x")], "/") && Regular([BareAttr(t), AidAttr("", "x")], "/")
    ensures SelfCloses(a) && !SelfCloses(Strip(a))
  {
    var x := AidAttr("", "x");
    AidAlone(x, "/");
    AidSays(x);
    GluedCloses(t, x);
    a := Render([BareAttr(t), x], "/");
  }

  lemma GluedCloses(t: string, x: Attr)
    requires IsBareText(t) && x.sep == " " && IsAidName(x.name) && Regular([x], "/")
    ensures Regular([BareAttr(t), x], "/")
    ensures var a := Render([BareAttr(t), x], "/"); SelfCloses(a) && !SelfCloses(Strip(a))
  {
    GluedText(t, x);
    BareGrows(t);
    BareRegular(t + "/");
    RegularSelfCloses([BareAttr(t), x], "/");
    RegularSelfCloses([BareAttr(t + "/")], "");
  }
}

/** Exactly when stripping a regular attribute text keeps its other attributes and its self-close marker. */
module StripExact {
  import opened AsciiText
  import opened AttrText
  import opened AttrGrammar
  import opened AttrEdits
  import opened AttrLists
  import opened AttrReading
  import opened StripLists

  // ----- the other attributes

  /** The attributes but for the aids. */
  function OtherThanAids(attrs: seq<(string, string)>): seq<(string, string)> {
    if attrs == [] then []
    else if attrs[0].0 == AID_NAME then OtherThanAids(attrs[1..])
    else [attrs[0]] + OtherThanAids(attrs[1..])
  }

  lemma {:induction false} ContentsKept(list: seq<Attr>, carry: string)
    ensures Contents(Kept(list, carry)) == OtherThanAids(Contents(list))
    decreases |list|
  {
    if list != [] {
      var c := Contents(list);
      assert c[0] == (Lower(list[0].name), Content(list[0].value)) && c[1..] == Contents(list[1..]);
      if IsAidName(list[0].name) {
        ContentsKept(list[1..], carry + Core(list[0].sep));
      } else {
        ContentsKept(list[1..], "");
        var l := [list[0].(sep := carry + list[0].sep)] + Kept(list[1..], "");
        assert l[1..] == Kept(list[1..], "");
      }
    }
  }

  /** What is left of a regular text: the attributes kept and the separators behind them. */
  lemma StripIsKept(list: seq<Attr>, tail: string)
    requires Regular(list, tail)
    ensures
      var kept, end := Kept(list, ""), KeptTail(list, "", tail);
      && Strip(Render(list, tail)) == Render(kept, end) && Loose(kept, end)
      && (Safe(list, tail, false) <==> Regular(kept, end))
  {
    StripRegular(list, tail);
    StrippedIsKept(list, "", tail);
    assert "" + Stripped(list, tail) == Stripped(list, tail);
    RegularIsLoose(list, tail);
    KeptLoose(list, "", tail);
    KeptRegular(list, "", tail, false);
  }

  /** The stripped text is read as the other attributes of the text. */
  predicate KeepsOthers(a: string, b: string) {
    Attributes(b, 0) == OtherThanAids(Attributes(a, 0))
  }

  /** Stripping keeps every other attribute of a regular text, name, value and place, exactly when no slash comes to
      stand behind an unquoted value. */
  lemma StripReadsTheSame(list: seq<Attr>, tail: string)
    requires Regular(list, tail)
    ensures KeepsOthers(Render(list, tail), Strip(Render(list, tail))) <==> Safe(list, tail, false)
  {
    StripIsKept(list, tail);
    RegularIsLoose(list, tail);
    ReadsAsList(list, tail);
    ReadsAsList(Kept(list, ""), KeptTail(list, "", tail));
    ContentsKept(list, "");
  }

  // ----- the self-close marker

  /** Only slashes in front of removed aids stand at the end of the stripped text. */
  predicate ComesToLight(list: seq<Attr>, tail: string) {
    tail == "" && EndsInSlash(KeptTail(list, "", tail))
  }

  /** Stripping keeps both the other attributes and the self-close marker of a regular text exactly when no slash comes
      to stand behind an unquoted value, nor alone at the end. */
  lemma StripKeepsAll(list: seq<Attr>, tail: string)
    requires Regular(list, tail)
    ensures
      var a := Render(list, tail);
      KeepsOthers(a, Strip(a)) && (SelfCloses(Strip(a)) <==> SelfCloses(a)) <==>
      Safe(list, tail, false) && !ComesToLight(list, tail)
  {
    StripReadsTheSame(list, tail);
    StripIsKept(list, tail);
    RegularSelfCloses(list, tail);
    KeptTailEnds(list, "", tail);
    if Safe(list, tail, false) {
      RegularSelfCloses(Kept(list, ""), KeptTail(list, "", tail));
    }
  }

  predicate LastIsBare(list: seq<Attr>) {
    list != [] && list[|list| - 1].value.Bare?
  }

  predicate HasSpace(s: string) {
    exists i :: 0 <= i < |s| && IsSpace(s[i])
  }

  /** The slashes in front of the first white space. */
  function Glue(s: string): (n: nat)
    ensures n <= |s| && (forall i :: 0 <= i < n ==> !IsSpace(s[i])) && (n < |s| ==> IsSpace(s[n]))
    ensures HasSpace(s) <==> n < |s|
  {
    if s == "" || IsSpace(s[0]) then 0
    else
      var n := 1 + Glue(s[1..]);
      assert forall i :: 0 < i < |s| ==> s[i] == s[1..][i - 1];
      n
  }

  function Longer(v: Value, glue: string): Value
    requires v.Bare?
  {
    Bare(v.before, v.after, v.text + glue)
  }

  /** The list with slashes glued to its last value. */
  function WithGlue(list: seq<Attr>, glue: string): seq<Attr>
    requires LastIsBare(list)
  {
    var x := list[|list| - 1];
    list[..|list| - 1] + [x.(value := Longer(x.value, glue))]
  }

  lemma BareLonger(v: Value, glue: string)
    requires RegularValue(v) && v.Bare? && AllSeparators(glue) && !HasSpace(glue)
    ensures RegularValue(Longer(v, glue)) && ValueText(Longer(v, glue)) == ValueText(v) + glue
  {
    var t := v.text + glue;
    forall i | 0 <= i < |t| ensures !IsSpace(t[i]) && t[i] != '>' {
      if i >= |v.text| { assert t[i] == glue[i - |v.text|]; }
    }
    assert v.before + "=" + v.after + (v.text + glue) == v.before + "=" + v.after + v.text + glue;
  }

  lemma {:induction false} GlueRenders(list: seq<Attr>, glue: string, more: string)
    requires LastIsBare(list) && Regular(list, " ") && AllSeparators(glue) && !HasSpace(glue)
    requires AllSeparators(more) && SpaceOrEnd(more)
    ensures Render(list, glue + more) == Render(WithGlue(list, glue), more) && Regular(WithGlue(list, glue), more)
    decreases |list|
  {
    var x, l := list[0], WithGlue(list, glue);
    if |list| == 1 {
      var y := x.(value := Longer(x.value, glue));
      BareLonger(x.value, glue);
      assert l == [y] && l[1..] == [] && list[1..] == [];
      assert Text(y) == x.sep + (x.name + (ValueText(x.value) + glue)) == Text(x) + glue;
      assert Text(x) + (glue + more) == (Text(x) + glue) + more;
    } else {
      GlueRenders(list[1..], glue, more);
      assert l[0] == x && l[1..] == WithGlue(list[1..], glue);
      assert l[1].sep == list[1].sep;
    }
  }

  lemma {:induction false} RegularWithTail(list: seq<Attr>, t: string, u: string)
    requires Regular(list, t) && AllSeparators(u) && (LastIsBare(list) ==> SpaceOrEnd(u))
    ensures Regular(list, u)
    decreases |list|
  {
    if list != [] {
      assert |list| > 1 ==> list[1..][|list| - 2] == list[|list| - 1];
      RegularWithTail(list[1..], t, u);
    }
  }

  /** The self-close test on a text that is regular but for slashes glued to its last value: these belong to the value,
      and a marker stands behind white space only. */
  lemma GluedMarker(list: seq<Attr>, end: string)
    requires Regular(list, " ") && AllSeparators(end)
    ensures SelfCloses(Render(list, end)) <==> EndsInSlash(end) && (LastIsBare(list) ==> HasSpace(end))
  {
    if LastIsBare(list) && !SpaceOrEnd(end) {
      CutAtGlue(end);
      GluedEnd(list, end[..Glue(end)], end[Glue(end)..]);
    } else {
      RegularWithTail(list, " ", end);
      RegularSelfCloses(list, end);
      SpaceIsSpace(end);
    }
  }

  lemma SpaceIsSpace(end: string)
    ensures SpaceOrEnd(end) && EndsInSlash(end) ==> HasSpace(end)
  {
    assert SpaceOrEnd(end) && end != "" ==> IsSpace(end[0]);
  }

  /** Behind the slashes in front of the first white space the text ends as before, if it has white space. */
  lemma CutAtGlue(end: string)
    requires AllSeparators(end)
    ensures end == end[..Glue(end)] + end[Glue(end)..] && !HasSpace(end[..Glue(end)])
    ensures AllSeparators(end[..Glue(end)]) && AllSeparators(end[Glue(end)..]) && SpaceOrEnd(end[Glue(end)..])
    ensures EndsInSlash(end[Glue(end)..]) <==> EndsInSlash(end) && HasSpace(end)
  {
    var more := end[Glue(end)..];
    assert more != "" ==> more[|more| - 1] == end[|end| - 1];
  }

  lemma GluedEnd(list: seq<Attr>, glue: string, more: string)
    requires Regular(list, " ") && LastIsBare(list) && AllSeparators(glue) && !HasSpace(glue)
    requires AllSeparators(more) && SpaceOrEnd(more)
    ensures SelfCloses(Render(list, glue + more)) <==> EndsInSlash(more)
  {
    GlueRenders(list, glue, more);
    RegularSelfCloses(WithGlue(list, glue), more);
  }

  /** When slashes are glued to the last value kept at most, stripping keeps the self-close marker exactly when the
      separators left at the end still say the same. */
  lemma StripKeepsMarker(list: seq<Attr>, tail: string)
    requires Regular(list, tail) && Regular(Kept(list, ""), " ")
    ensures
      var a, end := Render(list, tail), KeptTail(list, "", tail);
      (SelfCloses(Strip(a)) <==> SelfCloses(a)) <==>
      ((EndsInSlash(end) && (LastIsBare(Kept(list, "")) ==> HasSpace(end))) <==> EndsInSlash(tail))
  {
    StripIsKept(list, tail);
    GluedMarker(Kept(list, ""), KeptTail(list, "", tail));
    RegularSelfCloses(list, tail);
  }

  lemma KeptOfThree(v: Attr, x: Attr, b: Attr, tail: string)
    requires !IsAidName(v.name) && IsAidName(x.name) && !IsAidName(b.name) && x.sep == " "
    ensures Kept([v, x, b], "") == [v, b] && KeptTail([v, x, b], "", tail) == tail
  {
    var list := [v, x, b];
    assert list[1..] == [x, b] && [x, b][1..] == [b] && [b][1..] == [];
    assert Core(" ") == "" && "" + "" == "" && "" + tail == tail;
    assert "" + v.sep == v.sep && "" + b.sep == b.sep;
    assert v.(sep := v.sep) == v && b.(sep := b.sep) == b;
    assert Kept([b], "") == [b] + [] == [b];
    assert Kept([x, b], "") == [b];
    assert Kept(list, "") == [v] + [b];
    assert KeptTail([b], "", tail) == KeptTail([], "", tail) == tail;
    assert KeptTail([x, b], "", tail) == KeptTail([b], "", tail);
  }

  lemma RegularThree(v: Attr, x: Attr, b: Attr, tail: string)
    requires RegularAttr(v) && RegularAttr(x) && RegularAttr(b) && AllSeparators(tail)
    requires SpaceOrEnd(x.sep) && !x.value.Bare? && !b.value.Bare?
    ensures Regular([v, x, b], tail)
  {
    RegularCons(b, [], tail);
    RegularCons(x, [b], tail);
    RegularCons(v, [x, b], tail);
    assert [b] + [] == [b] && [x] + [b] == [x, b] && [v] + [x, b] == [v, x, b];
  }

  /** A slash glued to a value further in front swallows what follows, so the last attribute does not decide: in
      ` a=t data-odoc-aid="x"/a/` the marker is lost although no value stands in front of it. */
  lemma SwallowedMarker() returns (list: seq<Attr>)
    ensures Regular(list, "/") && !LastIsBare(Kept(list, "")) && EndsInSlash(KeptTail(list, "", "/"))
    ensures SelfCloses(Render(list, "/")) && !SelfCloses(Strip(Render(list, "/")))
  {
    var v, x, b := SwallowedParts();
    list := SwallowedFrom(v, x, b);
  }

  lemma SwallowedParts() returns (v: Attr, x: Attr, b: Attr)
    ensures v == BareAttr("t") && RegularAttr(v) && !IsAidName(v.name) && RegularAttr(x) && !x.value.Bare?
    ensures x.sep == " " && IsAidName(x.name) && b == Attr("/", "a", NoValue) && !IsAidName(b.name) &&
            IsNameText(b.name)
  {
    x := AidRegular();
    var t := OneLetter();
    v := SwallowedBare(t);
    b := SwallowedName();
  }

  lemma OneLetter() returns (t: string)
    ensures t == "t" && IsBareText(t)
  {
    t := "t";
  }

  lemma SwallowedName() returns (b: Attr)
    ensures b == Attr("/", "a", NoValue) && !IsAidName(b.name) && IsNameText(b.name)
  {
    AName();
    b := Attr("/", "a", NoValue);
  }

  lemma SwallowedBare(t: string) returns (v: Attr)
    requires IsBareText(t)
    ensures v == BareAttr(t) && RegularAttr(v) && !IsAidName(v.name)
  {
    v := BareAttr(t);
    AName();
    BareRegular(t);
  }

  lemma SwallowedFrom(v: Attr, x: Attr, b: Attr) returns (list: seq<Attr>)
    requires v == BareAttr("t") && RegularAttr(v) && !IsAidName(v.name) && RegularAttr(x) && !x.value.Bare?
    requires x.sep == " " && IsAidName(x.name) && b == Attr("/", "a", NoValue) && !IsAidName(b.name) &&
             IsNameText(b.name)
    ensures Regular(list, "/") && !LastIsBare(Kept(list, "")) && EndsInSlash(KeptTail(list, "", "/"))
    ensures SelfCloses(Render(list, "/")) && !SelfCloses(Strip(Render(list, "/")))
  {
    list := [v, x, b];
    RegularThree(v, x, b, "/");
    KeptOfThree(v, x, b, "/");
    RegularSelfCloses([v, x, b], "/");
    StripIsKept([v, x, b], "/");
    SwallowedText(v, b);
  }

  lemma SwallowedText(v: Attr, b: Attr)
    requires v == BareAttr("t") && b == Attr("/", "a", NoValue)
    ensures !SelfCloses(Render([v, b], "/"))
  {
    var u := "t/a/";
    assert IsBareText("t") && IsBareText(u);
    BareTextIs("t");
    BareTextIs(u);
    BareRegular(u);
    assert [v, b][1..] == [b] && [b][1..] == [];
    assert Text(b) == ['/'] + (['a'] + "") == ['/', 'a'];
    assert Render([b], "/") == ['/', 'a'] + ['/'] == ['/', 'a', '/'];
    assert Text(v) == [' ', 'a', '='] + ['t'];
    assert Render([v, b], "/") == ([' ', 'a', '='] + ['t']) + ['/', 'a', '/'] == [' ', 'a', '='] + ['t', '/', 'a', '/'];
    OneText(BareAttr(u));
    RegularSelfCloses([BareAttr(u)], "");
  }
}

/** Regular attribute text under stamping and stripping: what becomes of the attribute list. */
module StampLists {
  import opened AsciiText
  import opened TagSyntax
  import opened AttrText
  import opened AttrGrammar
  import opened AttrEdits
  import opened AttrLists
  import opened AidReading
  import opened StampText

  predicate AidFree(list: seq<Attr>) {
    forall k :: 0 <= k < |list| ==> !IsAidName(list[k].name)
  }

  // ----- stamping

  function AidAttr(sep: string, aid: string): Attr {
    Attr(sep + " ", AID_NAME, Quoted("", "", '"', aid))
  }

  lemma {:induction false} RenderSnoc(list: seq<Attr>, x: Attr, tail: string)
    ensures Render(list + [x], tail) == Render(list, Text(x) + tail)
  {
    if list == [] {
      assert [] + [x] == [x];
      assert [x][1..] == [];
    } else {
      assert (list + [x])[1..] == list[1..] + [x];
      RenderSnoc(list[1..], x, tail);
    }
  }

  lemma {:induction false} RegularSnoc(list: seq<Attr>, x: Attr, t: string, tail: string)
    requires Regular(list, t) && RegularAttr(x) && x.sep == t + " " && AllSeparators(tail) && !x.value.Bare?
    ensures Regular(list + [x], tail)
  {
    if list == [] {
      assert [] + [x] == [x];
      assert [x][1..] == [];
    } else {
      var l := list + [x];
      assert l[1..] == list[1..] + [x];
      RegularSnoc(list[1..], x, t, tail);
      if |list| == 1 {
        assert l[1] == x;
      } else {
        assert l[1] == list[1];
      }
    }
  }

  lemma {:induction false} RenderEnds(list: seq<Attr>)
    requires Regular(list, "") && list != []
    ensures var a := Render(list, ""); a != "" && !IsSpace(a[|a| - 1])
  {
    LastChar(list);
  }

  /** What of the tail stays in front of the inserted attribute, and what goes behind it. */
  function Before(tail: string, selfClose: bool): string {
    Core(if selfClose && EndsInSlash(tail) then tail[..|tail| - 1] else tail)
  }

  lemma BeforeShape(tail: string, selfClose: bool)
    requires AllSeparators(tail)
    ensures Before(tail, selfClose) <= tail && AllSeparators(Before(tail, selfClose))
    ensures AllSeparators(tail[|Before(tail, selfClose)|..])
    ensures Before(tail, selfClose) + tail[|Before(tail, selfClose)|..] == tail
  {
  }

  lemma {:induction false} TailSeparates(list: seq<Attr>, tail: string)
    requires Regular(list, tail)
    ensures AllSeparators(tail)
  {
    if list != [] {
      TailSeparates(list[1..], tail);
    }
  }

  lemma FrontAndTail(list: seq<Attr>, tail: string) returns (f: string)
    requires Regular(list, tail)
    ensures f == Render(list, "") && Render(list, tail) == f + tail && (f != "" ==> !IsSpace(f[|f| - 1]))
  {
    assert "" + tail == tail;
    RenderTail(list, "", tail);
    RegularTail(list, "", tail);
    f := Render(list, "");
    if list != [] {
      RenderEnds(list);
    }
  }

  lemma CoreEnds(f: string, t: string, a: string)
    requires (f != "" ==> !IsSpace(f[|f| - 1])) && f + t <= a
    ensures SpaceStart(a, 0, |f| + |t|) == |f| + |Core(t)|
  {
    var c := Core(t);
    var p := |f| + |c|;
    assert forall j :: 0 <= j < |f + t| ==> a[j] == (f + t)[j];
    forall j | p <= j < |f| + |t| ensures IsSpace(a[j]) { assert a[j] == t[j - |f|]; }
    if c != "" {
      assert a[p - 1] == t[|c| - 1] == c[|c| - 1];
    } else if f != "" {
      assert a[p - 1] == f[|f| - 1];
    }
    SpaceStartIs(a, 0, |f| + |t|, p);
  }

  lemma InsertsBefore(list: seq<Attr>, tail: string, selfClose: bool) returns (f: string)
    requires Regular(list, tail)
    ensures f == Render(list, "") && InsertAt(Render(list, tail), selfClose) == |f| + |Before(tail, selfClose)|
    ensures Render(list, tail) == f + tail
  {
    f := FrontAndTail(list, tail);
    RegularSelfCloses(list, tail);
    var t := if selfClose && EndsInSlash(tail) then tail[..|tail| - 1] else tail;
    PrefixBehind(f, t, tail);
    CoreEnds(f, t, f + tail);
  }

  lemma PrefixBehind(f: string, t: string, tail: string)
    requires t <= tail
    ensures f + t <= f + tail
  {
  }

  lemma RegularAidAttr(c: string, aid: string)
    requires AllSeparators(c) && IsWord(aid)
    ensures RegularAttr(AidAttr(c, aid)) && AidAttr(c, aid).sep == c + " " && !AidAttr(c, aid).value.Bare?
  {
    LowerAid();
    WordHasNoQuote(aid);
    SpacedSeparators(c, c + " ");
  }

  lemma SpacedSeparators(c: string, d: string)
    requires AllSeparators(c) && d == c + " "
    ensures AllSeparators(d)
  {
    assert IsSpace(' ') && d[|c|] == ' ';
    forall i | 0 <= i < |d| ensures IsSeparator(d[i]) {
      assert i < |c| ==> d[i] == c[i];
    }
  }

  lemma AidAttrFits(list: seq<Attr>, c: string, aid: string, rest: string)
    requires Regular(list, c) && AllSeparators(c) && AllSeparators(rest) && IsWord(aid)
    ensures Regular(list + [AidAttr(c, aid)], rest)
  {
    RegularAidAttr(c, aid);
    RegularSnoc(list, AidAttr(c, aid), c, rest);
  }

  /** Stamping regular text appends one attribute to its list. */
  lemma StampRegular(list: seq<Attr>, tail: string, aid: string, selfClose: bool) returns (x: Attr, rest: string)
    requires Regular(list, tail) && IsWord(aid)
    ensures x == AidAttr(Before(tail, selfClose), aid) && rest == tail[|Before(tail, selfClose)|..]
    ensures Regular(list + [x], rest) && StampAttrs(Render(list, tail), aid, selfClose) == Render(list + [x], rest)
  {
    var c := Before(tail, selfClose);
    x, rest := AidAttr(c, aid), tail[|c|..];
    TailSeparates(list, tail);
    BeforeShape(tail, selfClose);
    var f := InsertsBefore(list, tail, selfClose);
    RegularTail(list, c, rest);
    AidAttrFits(list, c, aid, rest);
    RenderSnoc(list, x, rest);
    StampedText(list, tail, aid, selfClose, f, c, rest);
  }

  lemma AidAttrText(c: string, aid: string)
    ensures Text(AidAttr(c, aid)) == c + AidText(aid)
  {
    AidTextIs(aid);
    assert (c + " ") + (AID_NAME + ValueText(Quoted("", "", '"', aid))) == c +
           (" " + (AID_NAME + ValueText(Quoted("", "", '"', aid))));
  }

  lemma InsertedText(a: string, f: string, c: string, rest: string, ins: string)
    requires a == f + (c + rest)
    ensures a[..|f| + |c|] + ins + a[|f| + |c|..] == f + ((c + ins) + rest)
  {
  }

  lemma StampAttrsIs(a: string, aid: string, selfClose: bool, f: string, c: string, rest: string)
    requires a == f + (c + rest) && InsertAt(a, selfClose) == |f| + |c|
    ensures StampAttrs(a, aid, selfClose) == f + (Text(AidAttr(c, aid)) + rest)
  {
    AidAttrText(c, aid);
    InsertedText(a, f, c, rest, AidText(aid));
  }

  lemma StampedText(list: seq<Attr>, tail: string, aid: string, selfClose: bool, f: string, c: string, rest: string)
    requires c + rest == tail && Render(list, tail) == f + tail && f == Render(list, "")
    requires InsertAt(Render(list, tail), selfClose) == |f| + |c|
    ensures StampAttrs(Render(list, tail), aid, selfClose) == Render(list, Text(AidAttr(c, aid)) + rest)
  {
    StampAttrsIs(Render(list, tail), aid, selfClose, f, c, rest);
    var t := Text(AidAttr(c, aid)) + rest;
    assert "" + t == t;
    RenderTail(list, "", t);
  }

  // ----- stripping what was stamped

  lemma {:induction false} StrippedFree(list: seq<Attr>, tail: string)
    requires AidFree(list)
    ensures Stripped(list, tail) == Render(list, tail)
  {
    if list != [] {
      assert AidFree(list[1..]);
      StrippedFree(list[1..], tail);
    }
  }

  lemma {:induction false} StrippedSnoc(list: seq<Attr>, x: Attr, tail: string)
    requires AidFree(list) && IsAidName(x.name)
    ensures Stripped(list + [x], tail) == Render(list, Core(x.sep) + tail)
  {
    if list == [] {
      assert [] + [x] == [x];
      assert [x][1..] == [];
    } else {
      assert (list + [x])[1..] == list[1..] + [x];
      assert (list + [x])[0] == list[0];
      assert AidFree(list[1..]);
      StrippedSnoc(list[1..], x, tail);
    }
  }

  lemma CoreOfCore(t: string)
    requires t != "" ==> !IsSpace(t[|t| - 1])
    ensures Core(t + " ") == t
  {
    SpaceStartIs(t + " ", 0, |t| + 1, |t|);
  }

  lemma StripStamped(list: seq<Attr>, tail: string, aid: string, selfClose: bool)
    requires Regular(list, tail) && AidFree(list) && IsWord(aid)
    ensures Strip(StampAttrs(Render(list, tail), aid, selfClose)) == Render(list, tail)
  {
    var x, rest := StampRegular(list, tail, aid, selfClose);
    var c := Before(tail, selfClose);
    LowerAid();
    StripRegular(list + [x], rest);
    StrippedSnoc(list, x, rest);
    CoreOfCore(c);
    TailSeparates(list, tail);
    BeforeShape(tail, selfClose);
  }

  /** In regular text the aid is never put into an unfinished value. */
  lemma RegularNeverDangles(list: seq<Attr>, tail: string, selfClose: bool)
    requires Regular(list, tail) && AidFree(list)
    ensures Strip(Render(list, tail)) == Render(list, tail) && !Dangles(Render(list, tail), selfClose)
  {
    StripRegular(list, tail);
    StrippedFree(list, tail);
    StripStamped(list, tail, "", selfClose);
    StripUndoesStamp(Render(list, tail), "", selfClose);
  }

  // ----- looking up in stamped text

  lemma {:induction false} LookupSnoc(list: seq<Attr>, x: Attr, target: string)
    ensures Lookup(list + [x], target) ==
            if Lookup(list, target).Found? then Lookup(list, target)
            else if Lower(x.name) == target then Found(Content(x.value)) else Absent
  {
    if list == [] {
      assert [] + [x] == [x];
      assert [x][1..] == [];
    } else {
      assert (list + [x])[1..] == list[1..] + [x];
      assert (list + [x])[0] == list[0];
      LookupSnoc(list[1..], x, target);
    }
  }

  lemma {:induction false} LookupFree(list: seq<Attr>)
    requires AidFree(list)
    ensures Lookup(list, AID_NAME) == Absent
  {
    if list != [] {
      assert AidFree(list[1..]);
      LookupFree(list[1..]);
    }
  }

  /** A stamped tag carries its aid, and its other attributes read as before. */
  lemma StampLookup(list: seq<Attr>, tail: string, aid: string, selfClose: bool, target: string)
    requires Regular(list, tail) && AidFree(list) && IsWord(aid)
    ensures
      var a := Render(list, tail);
      AttrValue(StampAttrs(a, aid, selfClose), target, 0) == if target == AID_NAME then Found(aid)
        else AttrValue(a, target, 0)
    ensures AttrValue(Render(list, tail), AID_NAME, 0) == Absent
  {
    var x, rest := StampRegular(list, tail, aid, selfClose);
    LookupRegular(list, tail, target);
    LookupRegular(list, tail, AID_NAME);
    LookupRegular(list + [x], rest, target);
    LookupSnoc(list, x, target);
    LookupFree(list);
    LowerAid();
  }
}

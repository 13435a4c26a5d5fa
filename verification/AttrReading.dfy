/** The attributes an attribute text is read as (internal/core/stamp.go, forEachAttr): regular text is read as its list,
    and text in which a slash is glued to an unquoted value is not. */
module AttrReading {
  import opened AsciiText
  import opened TagSyntax
  import opened AttrText
  import opened AttrGrammar
  import opened AttrEdits
  import opened AttrLists

  /** The attributes at `i` and behind: lowercase names and values, in order. */
  function Attributes(a: string, i: nat): seq<(string, string)>
    requires i <= |a|
    decreases |a| - i
  {
    var s := SkipSeparators(a, i);
    if s == |a| then []
    else if a[s] == '=' then Attributes(a, s + 1)
    else
      var t := TokenAt(a, s);
      [Reported(a, s, t)] + Attributes(a, t.next)
  }

  /** The attribute a token stands for. */
  function Reported(a: string, s: nat, t: Token): (string, string)
    requires s <= t.nameEnd <= |a| && (t.hasValue ==> t.valueStart <= t.valueStop <= |a|)
  {
    (Lower(a[s..t.nameEnd]), if t.hasValue then a[t.valueStart..t.valueStop] else "")
  }

  lemma AttributeAt(a: string, i: nat, s: nat, t: Token)
    requires i <= |a| && s == SkipSeparators(a, i) < |a| && a[s] != '=' && t == TokenAt(a, s)
    ensures Attributes(a, i) == [Reported(a, s, t)] + Attributes(a, t.next)
  {
  }

  lemma NoAttributeAt(a: string, i: nat, s: nat)
    requires i <= |a| && s == SkipSeparators(a, i) && (s < |a| ==> a[s] == '=')
    ensures Attributes(a, i) == if s == |a| then [] else Attributes(a, s + 1)
  {
  }

  lemma ValueQuoted(a: string, i: nat, v: nat, q: nat)
    requires i < |a| && !IsSeparator(a[i]) && v < |a|
    requires var eq := SkipSpace(a, NameStop(a, i)); eq < |a| && a[eq] == '=' && SkipSpace(a, eq + 1) == v
    requires (a[v] == '"' || a[v] == '\'') && CharAt(a, a[v], v + 1) == q
    ensures TokenAt(a, i) == Token(NameStop(a, i), true, v + 1, q, if q < |a| then q + 1 else q)
  {
  }

  lemma ValueBare(a: string, i: nat, v: nat, stop: nat)
    requires i < |a| && !IsSeparator(a[i])
    requires var eq := SkipSpace(a, NameStop(a, i)); eq < |a| && a[eq] == '=' && SkipSpace(a, eq + 1) == v
    requires (v < |a| ==> a[v] != '"' && a[v] != '\'') && SpaceStop(a, v) == stop
    ensures TokenAt(a, i) == Token(NameStop(a, i), true, v, stop, stop)
  {
  }

  /** The value of the attribute at `start` whose name ends at `nameEnd`, and where reading goes on. */
  method ReadAttr(attrs: string, start: nat, nameEnd: nat) returns (value: string, next: nat)
    requires start < |attrs| && !IsSeparator(attrs[start]) && nameEnd == NameStop(attrs, start)
    ensures var t := TokenAt(attrs, start);
            next == t.next && value == if t.hasValue then attrs[t.valueStart..t.valueStop] else ""
  {
    value := "";
    var i := SkipWhile(attrs, nameEnd, false);
    if i < |attrs| && attrs[i] == '=' {
      i := SkipWhile(attrs, i + 1, false);
      if i < |attrs| && (attrs[i] == '"' || attrs[i] == '\'') {
        var quote, valueStart := attrs[i], i + 1;
        i := IndexByte(attrs, quote, valueStart);
        CharAtIs(attrs, quote, valueStart, i);
        ValueQuoted(attrs, start, valueStart - 1, i);
        value := attrs[valueStart..i];
        if i < |attrs| {
          i := i + 1;
        }
      } else {
        var valueStart := i;
        i := ScanUnquoted(attrs, i);
        ValueBare(attrs, start, valueStart, i);
        value := attrs[valueStart..i];
      }
    }
    next := i;
  }

  /** forEachAttr: the loop that reports every attribute. */
  method ForEachAttr(attrs: string) returns (r: seq<(string, string)>)
    ensures r == Attributes(attrs, 0)
  {
    r := [];
    var i := 0;
    while i < |attrs|
      invariant 0 <= i <= |attrs| && r + Attributes(attrs, i) == Attributes(attrs, 0)
    {
      var start := SkipWhile(attrs, i, true);
      var nameEnd := ScanName(attrs, start);
      if start == nameEnd {
        NoAttributeAt(attrs, i, start);
        i := if start < |attrs| then start + 1 else start;
      } else {
        var value, next := ReadAttr(attrs, start, nameEnd);
        var attr := (Lower(attrs[start..nameEnd]), value);
        AttributeAt(attrs, i, start, TokenAt(attrs, start));
        Regroup(r, [attr], Attributes(attrs, next));
        r, i := r + [attr], next;
      }
    }
    assert r + [] == r;
  }

  lemma Regroup<T>(p: seq<T>, q: seq<T>, r: seq<T>)
    ensures p + (q + r) == (p + q) + r
  {
  }

  /** The names and values of a list. */
  function Contents(list: seq<Attr>): seq<(string, string)> {
    if list == [] then [] else [(Lower(list[0].name), Content(list[0].value))] + Contents(list[1..])
  }

  /** What comes first behind an attribute: the next one's separators, or the end. */
  function FirstSep(list: seq<Attr>, tail: string): string {
    if list == [] then tail else list[0].sep
  }

  /** Regular, but for slashes glued to unquoted values. */
  predicate Loose(list: seq<Attr>, tail: string) {
    AllSeparators(tail) && forall k :: 0 <= k < |list| ==> RegularAttr(list[k])
  }

  predicate Glued(list: seq<Attr>, tail: string)
    requires list != []
  {
    list[0].value.Bare? && !SpaceOrEnd(FirstSep(list[1..], tail))
  }

  lemma LooseRegular(list: seq<Attr>, tail: string)
    requires list != [] && Loose(list, tail)
    ensures Loose(list[1..], tail)
    ensures Regular(list, tail) <==> !Glued(list, tail) && Regular(list[1..], tail)
  {
    assert |list| > 1 ==> list[1..][0] == list[1];
  }

  lemma LooseFollows(list: seq<Attr>, tail: string)
    requires list != [] && Loose(list, tail) && !Glued(list, tail)
    ensures Follows(list[0].value, Render(list[1..], tail))
  {
    var rest := Render(list[1..], tail);
    if |list| > 1 {
      var y, more := list[1], Render(list[2..], tail);
      assert list[1..][0] == y && list[1..][1..] == list[2..];
      var n := |y.sep|;
      assert rest == y.sep + (y.name + ValueText(y.value) + more);
      assert rest[0] == y.sep[0] && rest[n] == y.name[0];
      NotEqualsYet(rest, n);
    } else {
      assert rest == tail;
    }
  }

  /** Where the parts of the list stand in the text. */
  predicate Stands(a: string, k: nat, list: seq<Attr>, tail: string) {
    k <= |a| && a[k..] == Render(list, tail) && Loose(list, tail)
  }

  lemma StandsNext(a: string, k: nat, list: seq<Attr>, tail: string)
    requires Stands(a, k, list, tail) && list != []
    ensures Stands(a, k + |Text(list[0])|, list[1..], tail)
    ensures Lies(a, k, Text(list[0]))
  {
    LooseRegular(list, tail);
    TextLies(a, k, list[0], Render(list[1..], tail));
  }

  /** The first attribute is read as it stands when nothing is glued to it. */
  lemma HeadReads(a: string, k: nat, list: seq<Attr>, tail: string, i: nat) returns (next: nat)
    requires Stands(a, k, list, tail) && list != [] && Resumes(a, k, i) && !Glued(list, tail)
    ensures Resumes(a, k + |Text(list[0])|, next) && next <= |a|
    ensures Attributes(a, i) == [(Lower(list[0].name), Content(list[0].value))] + Attributes(a, next)
  {
    StandsNext(a, k, list, tail);
    LooseFollows(list, tail);
    SuffixLies(a, k + |Text(list[0])|);
    ResumeSkips(a, k, i);
    var s, t := TokenIs(a, k, list[0], Render(list[1..], tail));
    NextResumes(a, s, k + |Text(list[0])|, list[0], t);
    AttributeAt(a, i, s, t);
    next := t.next;
  }

  /** An unquoted value goes on over a slash that is glued to it. */
  lemma BareGoesOver(a: string, i: nat, n: string, v: Value)
    requires IsNameText(n) && v.Bare? && RegularValue(v) && i < |a| && !IsSeparator(a[i])
    requires Lies(a, i, n) && Lies(a, i + |n|, ValueText(v))
    requires var end := i + |n| + |ValueText(v)|; end < |a| && !IsSpace(a[end])
    ensures var t := TokenAt(a, i); t.hasValue && t.valueStop - t.valueStart > |v.text|
  {
    var p, k := i + |n|, i + |n| + |v.before| + 1 + |v.after|;
    BareReads(a, i, n, v.before, v.after, v.text, p, k);
    BareToken(a, i, p + |v.before|, k, SpaceStop(a, k));
    BareLies(a, k, v.text);
  }

  lemma BareLies(a: string, k: nat, x: string)
    requires IsBareText(x) && Lies(a, k, x) && k + |x| < |a| && !IsSpace(a[k + |x|])
    ensures SpaceStop(a, k) > k + |x|
  {
    forall j | k <= j < k + |x| ensures !IsSpace(a[j]) {
      assert a[k + (j - k)] == x[j - k];
    }
  }

  lemma TextLies(a: string, k: nat, x: Attr, rest: string)
    requires k <= |a| && a[k..] == Text(x) + rest && RegularAttr(x)
    ensures k + |Text(x)| + |rest| == |a| && Lies(a, k, Text(x)) && a[k + |Text(x)|..] == rest
  {
    forall j | 0 <= j < |Text(x)| ensures a[k + j] == Text(x)[j] { assert a[k + j] == a[k..][j]; }
    assert a[k + |Text(x)|..] == a[k..][|Text(x)|..];
  }

  lemma NameLies(a: string, k: nat, x: Attr, s: nat)
    requires Lies(a, k, Text(x)) && RegularAttr(x) && s == k + |x.sep|
    ensures s == SkipSeparators(a, k) < |a| && !IsSeparator(a[s]) && a[s] != '='
    ensures Lies(a, s, x.name) && Lies(a, s + |x.name|, ValueText(x.value))
  {
    LiesSplit(a, k, x.sep, x.name + ValueText(x.value));
    LiesSplit(a, s, x.name, ValueText(x.value));
    assert a[s + 0] == x.name[0];
    SeparatorLies(a, k, x.sep);
  }

  /** An unquoted value with no white space behind it is read as a longer one. */
  lemma GluedToken(a: string, k: nat, x: Attr, rest: string, s: nat)
    requires k <= |a| && a[k..] == Text(x) + rest && RegularAttr(x) && s == k + |x.sep|
    requires x.value.Bare? && rest != "" && !IsSpace(rest[0])
    ensures s == SkipSeparators(a, k) < |a| && !IsSeparator(a[s]) && a[s] != '='
    ensures TokenAt(a, s).hasValue && TokenAt(a, s).valueStop - TokenAt(a, s).valueStart > |x.value.text|
  {
    TextLies(a, k, x, rest);
    NameLies(a, k, x, s);
    assert a[k + |Text(x)|] == a[k + |Text(x)|..][0];
    assert s + |x.name| + |ValueText(x.value)| == k + |Text(x)|;
    BareGoesOver(a, s, x.name, x.value);
  }

  lemma GluedRest(list: seq<Attr>, tail: string)
    requires list != [] && Loose(list, tail) && Glued(list, tail)
    ensures var rest := Render(list[1..], tail); rest != "" && !IsSpace(rest[0])
  {
    if |list| > 1 {
      assert list[1..][0] == list[1] && RegularAttr(list[1]);
      assert Render(list[1..], tail)[0] == list[1].sep[0];
    }
  }

  /** An attribute with a slash glued to it is read with a longer value. */
  lemma GluedReads(a: string, k: nat, list: seq<Attr>, tail: string, i: nat)
    requires Stands(a, k, list, tail) && list != [] && Resumes(a, k, i) && Glued(list, tail)
    ensures Attributes(a, i) != [] && Attributes(a, i)[0] != (Lower(list[0].name), Content(list[0].value))
  {
    var s := k + |list[0].sep|;
    GluedRest(list, tail);
    GluedToken(a, k, list[0], Render(list[1..], tail), s);
    ResumeSkips(a, k, i);
    LongerValue(a, i, s, Content(list[0].value));
  }

  lemma LongerValue(a: string, i: nat, s: nat, value: string)
    requires i <= |a| && s == SkipSeparators(a, i) < |a| && !IsSeparator(a[s]) && a[s] != '='
    requires TokenAt(a, s).hasValue && TokenAt(a, s).valueStop - TokenAt(a, s).valueStart > |value|
    ensures Attributes(a, i) != [] && |Attributes(a, i)[0].1| > |value|
  {
    AttributeAt(a, i, s, TokenAt(a, s));
  }

  /** The text is read as the list's attributes exactly when the list is regular. */
  lemma {:induction false} AttributesAre(a: string, k: nat, list: seq<Attr>, tail: string, i: nat)
    requires Stands(a, k, list, tail) && Resumes(a, k, i)
    ensures Attributes(a, i) == Contents(list) <==> Regular(list, tail)
    decreases |list|
  {
    if list == [] {
      NothingReads(a, k, list, tail, i);
    } else {
      LooseRegular(list, tail);
      if Glued(list, tail) {
        GluedReads(a, k, list, tail, i);
      } else {
        var next := HeadReads(a, k, list, tail, i);
        StandsNext(a, k, list, tail);
        var m, rest := k + |Text(list[0])|, list[1..];
        AttributesAre(a, m, rest, tail, next);
        ContentsHead(list);
        SameTails((Lower(list[0].name), Content(list[0].value)), Attributes(a, next), Contents(rest));
      }
    }
  }

  lemma NothingReads(a: string, k: nat, list: seq<Attr>, tail: string, i: nat)
    requires Stands(a, k, list, tail) && Resumes(a, k, i) && list == []
    ensures Attributes(a, i) == Contents(list) && Regular(list, tail)
  {
    ResumeSkips(a, k, i);
    TailSkips(a, k, tail);
  }

  lemma ContentsHead(list: seq<Attr>)
    requires list != []
    ensures Contents(list) == [(Lower(list[0].name), Content(list[0].value))] + Contents(list[1..])
  {
  }

  lemma SameTails<T>(x: T, p: seq<T>, q: seq<T>)
    ensures [x] + p == [x] + q <==> p == q
  {
    if [x] + p == [x] + q {
      assert p == ([x] + p)[1..] == ([x] + q)[1..] == q;
    }
  }

  lemma ReadsAsList(list: seq<Attr>, tail: string)
    requires Loose(list, tail)
    ensures Attributes(Render(list, tail), 0) == Contents(list) <==> Regular(list, tail)
  {
    var a := Render(list, tail);
    assert a[0..] == a;
    AttributesAre(a, 0, list, tail, 0);
  }
}

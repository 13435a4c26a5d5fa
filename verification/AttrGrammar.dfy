/** Regular attribute text: attributes set apart by white space or stray slashes, every value complete.
    It covers the attribute syntax of section 13.1.2.3 of the WHATWG HTML Standard. */
module AttrGrammar {
  import opened AsciiText
  import opened AttrText
  import opened TagMachine

  datatype Value =
    | NoValue
    | Quoted(before: string, after: string, quote: char, text: string)
    | Bare(before: string, after: string, text: string)

  /** One attribute with the separators in front of it. */
  datatype Attr = Attr(sep: string, name: string, value: Value)

  predicate AllSpace(s: string) {
    forall i :: 0 <= i < |s| ==> IsSpace(s[i])
  }

  predicate AllSeparators(s: string) {
    forall i :: 0 <= i < |s| ==> IsSeparator(s[i])
  }

  predicate IsNameText(n: string) {
    n != "" && forall i :: 0 <= i < |n| ==> !IsSeparator(n[i]) && n[i] != '=' && n[i] != '>'
  }

  predicate IsBareText(b: string) {
    b != "" && b[0] != '"' && b[0] != '\'' && forall i :: 0 <= i < |b| ==> !IsSpace(b[i]) && b[i] != '>'
  }

  predicate RegularValue(v: Value) {
    match v
    case NoValue => true
    case Quoted(b, a, q, t) => AllSpace(b) && AllSpace(a) && (q == '"' || q == '\'') && q !in t
    case Bare(b, a, t) => AllSpace(b) && AllSpace(a) && IsBareText(t)
  }

  function ValueText(v: Value): string {
    match v
    case NoValue => ""
    case Quoted(b, a, q, t) => b + "=" + a + [q] + t + [q]
    case Bare(b, a, t) => b + "=" + a + t
  }

  predicate RegularAttr(x: Attr) {
    x.sep != "" && AllSeparators(x.sep) && IsNameText(x.name) && RegularValue(x.value)
  }

  function Text(x: Attr): string {
    x.sep + (x.name + ValueText(x.value))
  }

  /** The whole attribute text: the attributes and the separators behind them. */
  function Render(list: seq<Attr>, tail: string): string {
    if list == [] then tail else Text(list[0]) + Render(list[1..], tail)
  }

  /** What may follow an unquoted value: nothing, or white space, since a slash would belong to it. */
  predicate SpaceOrEnd(s: string) {
    s == "" || IsSpace(s[0])
  }

  predicate Regular(list: seq<Attr>, tail: string) {
    if list == [] then AllSeparators(tail)
    else
      && RegularAttr(list[0])
      && (list[0].value.Bare? ==> SpaceOrEnd(if |list| > 1 then list[1].sep else tail))
      && Regular(list[1..], tail)
  }

  /** The text ends in a separating slash. */
  predicate EndsInSlash(tail: string) {
    tail != "" && tail[|tail| - 1] == '/'
  }

  // ----- the tokenizer and the self-close test over regular text, side by side

  /** The two readings agree; the test's name states also stand for the tokenizer's right behind a slash. */
  predicate Agree(m: TagState, s: SlashState) {
    match m
    case TagName => s.SBeforeAttr?
    case BeforeAttrName => s.SBeforeAttr? || s.SAfterAttrName?
    case AttrName => s.SAttrName?
    case AfterAttrName => s.SAfterAttrName?
    case BeforeValue => s.SBeforeValue?
    case DoubleQuoted => s == SQuoted('"')
    case SingleQuoted => s == SQuoted('\'')
    case Unquoted => s.SUnquoted?
    case AfterQuoted => s.SAfterQuoted?
    case SelfClosing => s.SAttrName?
  }

  /** Between attributes. */
  predicate Ready(m: TagState) {
    !m.BeforeValue? && !m.DoubleQuoted? && !m.SingleQuoted?
  }

  /** Behind a slash the tokenizer starts a new name at `=`; the self-close test takes it for a value. */
  predicate BehindSlash(m: TagState, s: SlashState) {
    m.SelfClosing? || (m.BeforeAttrName? && s.SAfterAttrName?)
  }

  lemma AgreeStep(m: TagState, s: SlashState, c: char)
    requires Agree(m, s) && Consume(m, c).In?
    requires m.TagName? ==> IsSeparator(c)
    requires BehindSlash(m, s) ==> c != '='
    ensures Agree(Consume(m, c).state, SlashStep(s, c))
  {
    Direct(m, c);
  }

  lemma {:induction false} SlashFeedConcat(s: SlashState, p: string, q: string)
    ensures SlashFeed(s, p + q) == SlashFeed(SlashFeed(s, p), q)
  {
    if q == [] {
      assert p + q == p;
    } else {
      assert (p + q)[..|p + q| - 1] == p + q[..|q| - 1];
      SlashFeedConcat(s, p, q[..|q| - 1]);
    }
  }

  /** Feeding one more character. */
  lemma FeedSnoc(m: TagState, p: string, c: char, u: TagState)
    requires Feed(m, p) == At(u)
    ensures Feed(m, p + [c]) == match Consume(u, c) { case Emitted(_) => Stopped case In(v) => At(v) }
  {
    FeedConcat(m, p, [c]);
    assert [c][1..] == "";
  }

  /** Both readings of `p` from `(m, s)` end in `(u, v)`. */
  predicate Both(m: TagState, s: SlashState, p: string, u: TagState, v: SlashState) {
    Feed(m, p) == At(u) && SlashFeed(s, p) == v && Agree(u, v)
  }

  lemma BothConcat(m: TagState, s: SlashState, p: string, u: TagState, v: SlashState, q: string, u': TagState,
                   v': SlashState)
    requires Both(m, s, p, u, v) && Both(u, v, q, u', v')
    ensures Both(m, s, p + q, u', v')
  {
    FeedConcat(m, p, q);
    SlashFeedConcat(s, p, q);
  }

  lemma BothSnoc(m: TagState, s: SlashState, p: string, u: TagState, v: SlashState, c: char)
    requires Both(m, s, p, u, v) && Consume(u, c).In?
    requires u.TagName? ==> IsSeparator(c)
    requires BehindSlash(u, v) ==> c != '='
    ensures Both(m, s, p + [c], Consume(u, c).state, SlashStep(v, c))
  {
    FeedSnoc(m, p, c, u);
    AgreeStep(u, v, c);
    assert (p + [c])[..|p|] == p;
  }

  lemma {:induction false} BothSeparators(m: TagState, s: SlashState, p: string) returns (u: TagState, v: SlashState)
    requires Agree(m, s) && Ready(m) && AllSeparators(p) && (m.Unquoted? ==> SpaceOrEnd(p))
    ensures Both(m, s, p, u, v)
    ensures p == "" ==> u == m && v == s
    ensures p != "" ==> u.BeforeAttrName? || u.AfterAttrName? || u.SelfClosing?
    ensures p != "" ==> (u.SelfClosing? <==> p[|p| - 1] == '/')
    decreases |p|
  {
    if p == "" {
      u, v := m, s;
    } else {
      var front, c := p[..|p| - 1], p[|p| - 1];
      assert p == front + [c];
      var u0, v0 := BothSeparators(m, s, front);
      Direct(u0, c);
      BothSnoc(m, s, front, u0, v0, c);
      u, v := Consume(u0, c).state, SlashStep(v0, c);
    }
  }

  /** The first character of a name. */
  lemma BothOne(m: TagState, s: SlashState, n: string)
    requires Agree(m, s) && (m.BeforeAttrName? || m.AfterAttrName? || m.SelfClosing?) && IsNameText(n) && |n| == 1
    ensures Both(m, s, n, AttrName, SAttrName)
  {
    Direct(m, n[0]);
    assert n[1..] == "" && n[..0] == "";
    assert Feed(m, n) == Feed(AttrName, "") && SlashFeed(s, n) == SlashStep(SlashFeed(s, ""), n[0]);
  }

  lemma {:induction false} BothName(m: TagState, s: SlashState, n: string)
    requires Agree(m, s) && (m.BeforeAttrName? || m.AfterAttrName? || m.SelfClosing?) && IsNameText(n)
    ensures Both(m, s, n, AttrName, SAttrName)
    decreases |n|
  {
    var front, c := n[..|n| - 1], n[|n| - 1];
    assert n == front + [c];
    if front == "" {
      BothOne(m, s, n);
    } else {
      BothName(m, s, front);
      Direct(AttrName, c);
      BothSnoc(m, s, front, AttrName, SAttrName, c);
    }
  }

  /** White space before `=` and before a value. */
  lemma {:induction false} BothSpaces(m: TagState, s: SlashState, p: string) returns (u: TagState, v: SlashState)
    requires (m == AttrName && s == SAttrName) || (m == BeforeValue && s == SBeforeValue)
    requires AllSpace(p)
    ensures Both(m, s, p, u, v)
    ensures m.BeforeValue? ==> u == m && v == s
    ensures m.AttrName? ==> (u == AttrName && v == SAttrName) || (u == AfterAttrName && v == SAfterAttrName)
    decreases |p|
  {
    if p == "" {
      u, v := m, s;
    } else {
      var front, c := p[..|p| - 1], p[|p| - 1];
      assert p == front + [c];
      var u0, v0 := BothSpaces(m, s, front);
      Direct(u0, c);
      BothSnoc(m, s, front, u0, v0, c);
      u, v := Consume(u0, c).state, SlashStep(v0, c);
    }
  }

  /** Text that stays inside one value. */
  lemma {:induction false} BothInside(m: TagState, s: SlashState, p: string)
    requires Agree(m, s) && (m.DoubleQuoted? || m.SingleQuoted? || m.Unquoted?)
    requires m.DoubleQuoted? ==> '"' !in p
    requires m.SingleQuoted? ==> '\'' !in p
    requires m.Unquoted? ==> forall i :: 0 <= i < |p| ==> !IsSpace(p[i]) && p[i] != '>'
    ensures Both(m, s, p, m, s)
    decreases |p|
  {
    if p != "" {
      var front, c := p[..|p| - 1], p[|p| - 1];
      assert p == front + [c];
      BothInside(m, s, front);
      Direct(m, c);
      BothSnoc(m, s, front, m, s, c);
    }
  }

  /** The equals sign with the white space around it. */
  lemma BothEquals(before: string, after: string)
    requires AllSpace(before) && AllSpace(after)
    ensures Both(AttrName, SAttrName, before + "=" + after, BeforeValue, SBeforeValue)
  {
    var u, v := BothSpaces(AttrName, SAttrName, before);
    Direct(u, '=');
    BothSnoc(AttrName, SAttrName, before, u, v, '=');
    var u', v' := BothSpaces(BeforeValue, SBeforeValue, after);
    BothConcat(AttrName, SAttrName, before + "=", BeforeValue, SBeforeValue, after, u', v');
  }

  lemma BothValue(x: Value) returns (u: TagState, v: SlashState)
    requires RegularValue(x)
    ensures Both(AttrName, SAttrName, ValueText(x), u, v) && Ready(u) && !u.TagName? && !u.SelfClosing? &&
            (u.Unquoted? <==> x.Bare?)
  {
    match x
    case NoValue =>
      u, v := AttrName, SAttrName;
    case Quoted(b, a, q, t) =>
      var head := b + "=" + a;
      var m := if q == '"' then DoubleQuoted else SingleQuoted;
      BothEquals(b, a);
      Direct(BeforeValue, q);
      BothSnoc(AttrName, SAttrName, head, BeforeValue, SBeforeValue, q);
      BothInside(m, SQuoted(q), t);
      BothConcat(AttrName, SAttrName, head + [q], m, SQuoted(q), t, m, SQuoted(q));
      Direct(m, q);
      BothSnoc(AttrName, SAttrName, head + [q] + t, m, SQuoted(q), q);
      u, v := AfterQuoted, SAfterQuoted;
    case Bare(b, a, t) =>
      var head := b + "=" + a;
      BothEquals(b, a);
      var c, rest := t[0], t[1..];
      Direct(BeforeValue, c);
      BothSnoc(AttrName, SAttrName, head, BeforeValue, SBeforeValue, c);
      BothInside(Unquoted, SUnquoted, rest);
      BothConcat(AttrName, SAttrName, head + [c], Unquoted, SUnquoted, rest, Unquoted, SUnquoted);
      assert head + [c] + rest == head + t;
      u, v := Unquoted, SUnquoted;
  }

  lemma BothAttr(m: TagState, s: SlashState, x: Attr) returns (u: TagState, v: SlashState)
    requires Agree(m, s) && Ready(m) && RegularAttr(x) && (m.Unquoted? ==> SpaceOrEnd(x.sep))
    ensures Both(m, s, Text(x), u, v) && Ready(u) && !u.TagName? && !u.SelfClosing? && (u.Unquoted? <==> x.value.Bare?)
  {
    var u0, v0 := BothSeparators(m, s, x.sep);
    BothName(u0, v0, x.name);
    u, v := BothValue(x.value);
    BothConcat(u0, v0, x.name, AttrName, SAttrName, ValueText(x.value), u, v);
    BothConcat(m, s, x.sep, u0, v0, x.name + ValueText(x.value), u, v);
  }

  /** Over regular text neither reading stops, both end between attributes, and the tokenizer expects a
      self-closing `>` exactly when the text ends in a separating slash. */
  lemma {:induction false} BothList(m: TagState, s: SlashState, list: seq<Attr>, tail: string)
    returns (u: TagState, v: SlashState)
    requires Agree(m, s) && Ready(m) && Regular(list, tail)
    requires m.Unquoted? ==> SpaceOrEnd(if list != [] then list[0].sep else tail)
    ensures Both(m, s, Render(list, tail), u, v) && Ready(u)
    ensures tail != "" ==> !u.Unquoted? && !u.TagName? && (u.SelfClosing? <==> EndsInSlash(tail))
    ensures tail == "" && list != [] ==> !u.SelfClosing? && (u.Unquoted? <==> list[|list| - 1].value.Bare?)
    ensures tail == "" && list == [] ==> u == m && v == s
    decreases |list|
  {
    if list == [] {
      u, v := BothSeparators(m, s, tail);
    } else {
      var u0, v0 := BothAttr(m, s, list[0]);
      u, v := BothList(u0, v0, list[1..], tail);
      BothConcat(m, s, Text(list[0]), u0, v0, Render(list[1..], tail), u, v);
    }
  }

  /** A slash behind the separators is taken for the marker. */
  lemma SlashTailCloses(list: seq<Attr>, t: string)
    requires Regular(list, t + "/")
    ensures SelfCloses(Render(list, t + "/"))
  {
    var a := Render(list, t + "/");
    RenderTail(list, t, "/");
    RegularTail(list, t, "/");
    assert a[..|a| - 1] == Render(list, t) && a[|a| - 1] == '/';
    var u, v := BothList(TagName, SBeforeAttr, list, t);
    if u.Unquoted? {
      LastBareTail(list, t + "/");
    }
  }

  lemma SpaceTailDoesNot(list: seq<Attr>, t: string, c: char)
    requires c != '/'
    ensures !SelfCloses(Render(list, t + [c]))
  {
    RenderTail(list, t, [c]);
    var a := Render(list, t + [c]);
    assert a[|a| - 1] == c;
  }

  /** Without separators at the end, a last slash belongs to an unquoted value. */
  lemma NoTailDoesNot(list: seq<Attr>)
    requires Regular(list, "")
    ensures !SelfCloses(Render(list, ""))
  {
    if list != [] {
      var a := Render(list, "");
      LastChar(list);
      var u, v := BothList(TagName, SBeforeAttr, list, "");
      UnquotedDoesNot(a, list[|list| - 1].value.Bare?);
    }
  }

  lemma UnquotedDoesNot(a: string, bare: bool)
    requires a != "" && (a[|a| - 1] == '/' ==> bare) && (bare ==> SlashFeed(SBeforeAttr, a).SUnquoted?)
    ensures !SelfCloses(a)
  {
    assert SlashFeed(SBeforeAttr, a) == SlashStep(SlashFeed(SBeforeAttr, a[..|a| - 1]), a[|a| - 1]);
  }

  /** The self-close test on regular text: it finds the slash that ends the separators, and nothing else. */
  lemma RegularSelfCloses(list: seq<Attr>, tail: string)
    requires Regular(list, tail)
    ensures SelfCloses(Render(list, tail)) <==> EndsInSlash(tail)
  {
    if tail == "" {
      NoTailDoesNot(list);
    } else {
      var t, c := tail[..|tail| - 1], tail[|tail| - 1];
      assert tail == t + [c];
      if c == '/' {
        SlashTailCloses(list, t);
      } else {
        SpaceTailDoesNot(list, t, c);
      }
    }
  }

  lemma {:induction false} RenderTail(list: seq<Attr>, t: string, more: string)
    ensures Render(list, t + more) == Render(list, t) + more
  {
    if list != [] {
      RenderTail(list[1..], t, more);
      assert Text(list[0]) + (Render(list[1..], t) + more) == Text(list[0]) + Render(list[1..], t) + more;
    }
  }

  /** Shortening the tail keeps regular text regular. */
  lemma {:induction false} RegularTail(list: seq<Attr>, t: string, more: string)
    requires Regular(list, t + more)
    ensures Regular(list, t)
  {
    if list == [] {
      assert forall i :: 0 <= i < |t| ==> (t + more)[i] == t[i];
    } else {
      RegularTail(list[1..], t, more);
      if |list| == 1 && t != "" {
        assert (t + more)[0] == t[0];
      }
    }
  }

  lemma {:induction false} LastBareTail(list: seq<Attr>, tail: string)
    requires Regular(list, tail) && list != []
    ensures list[|list| - 1].value.Bare? ==> SpaceOrEnd(tail)
  {
    if |list| > 1 {
      LastBareTail(list[1..], tail);
    }
  }

  /** The last character of `s + t`. */
  lemma LastOf(s: string, t: string)
    requires t != ""
    ensures (s + t)[|s + t| - 1] == t[|t| - 1]
  {
  }

  /** An attribute ends in no white space, and in a slash only when its value is unquoted. */
  lemma TextEnds(x: Attr)
    requires RegularAttr(x)
    ensures Text(x) != "" && !IsSpace(Text(x)[|Text(x)| - 1]) && (Text(x)[|Text(x)| - 1] == '/' ==> x.value.Bare?)
  {
    match x.value
    case NoValue =>
      assert x.name + ValueText(x.value) == x.name;
      LastOf(x.sep, x.name);
    case Quoted(b, a, q, s) =>
      LastOf(b + "=" + a + [q] + s, [q]);
      LastOf(x.name, ValueText(x.value));
      LastOf(x.sep, x.name + ValueText(x.value));
    case Bare(b, a, s) =>
      LastOf(b + "=" + a, s);
      LastOf(x.name, ValueText(x.value));
      LastOf(x.sep, x.name + ValueText(x.value));
  }

  /** A last attribute that ends in a slash has an unquoted value. */
  lemma {:induction false} LastChar(list: seq<Attr>)
    requires list != [] && Regular(list, "")
    ensures
      var a := Render(list, "");
      a != "" && !IsSpace(a[|a| - 1]) && (a[|a| - 1] == '/' ==> list[|list| - 1].value.Bare?)
  {
    if |list| == 1 {
      assert Render(list, "") == Text(list[0]) + "" == Text(list[0]);
      TextEnds(list[0]);
    } else {
      LastChar(list[1..]);
      LastOf(Text(list[0]), Render(list[1..], ""));
    }
  }

  /** The tokenizer over the attributes of a tag: at the `>` behind regular text it emits the tag, as
      self-closing exactly when the program's test finds the marker. */
  lemma RegularEnds(list: seq<Attr>, tail: string) returns (u: TagState)
    requires Regular(list, tail)
    ensures Feed(TagName, Render(list, tail)) == At(u)
    ensures Consume(u, '>') == Emitted(SelfCloses(Render(list, tail)))
  {
    var v;
    u, v := BothList(TagName, SBeforeAttr, list, tail);
    Direct(u, '>');
    RegularSelfCloses(list, tail);
  }
}

/** Stripping, stamping and looking up attributes in regular text: what happens to the attribute list.
    The loops resume in the separators behind an attribute; from there one turn reads the next attribute as one token
    and the list gets shorter by one. */
module AttrLists {
  import opened AsciiText
  import opened TagSyntax
  import opened AttrText
  import opened AttrGrammar
  import opened AttrEdits

  // ----- what follows an attribute

  lemma NotEqualsYet(rest: string, n: nat)
    requires n < |rest| && !IsSpace(rest[n]) && forall i :: 0 <= i <= n ==> rest[i] != '='
    ensures forall i :: 0 <= i < |rest| && rest[i] == '=' ==> exists j :: 0 <= j < i && !IsSpace(rest[j])
  {
  }

  lemma ListFollows(x: Attr, list: seq<Attr>, tail: string)
    requires Regular([x] + list, tail)
    ensures Follows(x.value, Render(list, tail))
  {
    assert ([x] + list)[1..] == list;
    var rest := Render(list, tail);
    if list != [] {
      assert ([x] + list)[1] == list[0];
      var y := list[0];
      var more := Render(list[1..], tail);
      var n := |y.sep|;
      assert rest == y.sep + (y.name + ValueText(y.value) + more);
      assert rest[0] == y.sep[0] && rest[n] == y.name[0];
      NotEqualsYet(rest, n);
    }
  }

  /** Behind position `k`, `a` is the regular text of `list` and `tail`. */
  predicate Holds(a: string, k: nat, list: seq<Attr>, tail: string) {
    k <= |a| && a[k..] == Render(list, tail) && Regular(list, tail)
  }

  lemma HoldsNext(a: string, k: nat, list: seq<Attr>, tail: string)
    requires Holds(a, k, list, tail) && list != []
    ensures Holds(a, k + |Text(list[0])|, list[1..], tail)
    ensures Lies(a, k, Text(list[0])) && a[k..k + |Text(list[0])|] == Text(list[0])
  {
    var x, rest := Text(list[0]), Render(list[1..], tail);
    var e := k + |x|;
    assert a[k..] == x + rest;
    assert a[e..] == a[k..][|x|..] == rest;
    assert a[k..e] == a[k..][..|x|] == x;
    forall j | 0 <= j < |x| ensures a[k + j] == x[j] { assert a[k + j] == a[k..][j]; }
  }

  lemma SuffixLies(a: string, k: nat)
    requires k <= |a|
    ensures Lies(a, k, a[k..]) && k + |a[k..]| == |a|
  {
  }

  /** The first attribute behind `k`, read as one token. */
  lemma HeadToken(a: string, k: nat, list: seq<Attr>, tail: string) returns (s: nat, t: Token)
    requires Holds(a, k, list, tail) && list != []
    ensures s == SkipSeparators(a, k) == k + |list[0].sep| < |a| && !IsSeparator(a[s]) && a[s] != '='
    ensures t == TokenAt(a, s) && ReadsAs(a, s, k + |Text(list[0])|, list[0], t)
  {
    assert list == [list[0]] + list[1..];
    ListFollows(list[0], list[1..], tail);
    HoldsNext(a, k, list, tail);
    SuffixLies(a, k + |Text(list[0])|);
    s, t := TokenIs(a, k, list[0], Render(list[1..], tail));
  }

  /** Reading may resume anywhere in the separators behind `k`. */
  predicate Resumes(a: string, k: nat, i: nat) {
    k <= i <= |a| && forall j :: k <= j < i ==> IsSeparator(a[j])
  }

  lemma ResumeSkips(a: string, k: nat, i: nat)
    requires Resumes(a, k, i)
    ensures SkipSeparators(a, i) == SkipSeparators(a, k)
  {
    SeparatorsAre(a, i, SkipSeparators(a, k));
  }

  lemma NextResumes(a: string, s: nat, end: nat, x: Attr, t: Token)
    requires ReadsAs(a, s, end, x, t)
    ensures Resumes(a, end, t.next)
  {
  }

  lemma TailSkips(a: string, k: nat, tail: string)
    requires Holds(a, k, [], tail)
    ensures SkipSeparators(a, k) == |a|
  {
    assert forall j :: k <= j < |a| ==> a[j] == a[k..][j - k];
    SeparatorsAre(a, k, |a|);
  }

  // ----- lookup

  /** The value of the first attribute named `target`. */
  function Lookup(list: seq<Attr>, target: string): Found<string> {
    if list == [] then Absent
    else if Lower(list[0].name) == target then Found(Content(list[0].value))
    else Lookup(list[1..], target)
  }

  lemma {:induction false} AttrValueIsLookup(a: string, k: nat, list: seq<Attr>, tail: string, target: string, i: nat)
    requires Holds(a, k, list, tail) && Resumes(a, k, i)
    ensures AttrValue(a, target, i) == Lookup(list, target)
    decreases |list|
  {
    ResumeSkips(a, k, i);
    if list == [] {
      TailSkips(a, k, tail);
    } else {
      var s, t := HeadToken(a, k, list, tail);
      var end := k + |Text(list[0])|;
      HoldsNext(a, k, list, tail);
      NextResumes(a, s, end, list[0], t);
      AttrValueIsLookup(a, end, list[1..], tail, target, t.next);
    }
  }

  // ----- stripping

  /** Separators without the white space at their end. */
  function Core(sep: string): (r: string)
    ensures r <= sep
    ensures forall j :: |r| <= j < |sep| ==> IsSpace(sep[j])
    ensures r != "" ==> !IsSpace(r[|r| - 1])
  {
    sep[..SpaceStart(sep, 0, |sep|)]
  }

  /** The text without its aid attributes: of each, only slashes in front of it remain. */
  function Stripped(list: seq<Attr>, tail: string): string {
    if list == [] then tail
    else (if IsAidName(list[0].name) then Core(list[0].sep) else Text(list[0])) + Stripped(list[1..], tail)
  }

  /** What lies before `k` was emitted up to there, or ends in no white space. */
  predicate Flush(a: string, k: nat, cursor: nat) {
    cursor <= k <= |a| && (cursor == k || !IsSpace(a[k - 1]))
  }

  lemma SpaceStartIs(a: string, cursor: nat, i: nat, r: nat)
    requires cursor <= r <= i <= |a|
    requires forall j :: r <= j < i ==> IsSpace(a[j])
    requires r > cursor ==> !IsSpace(a[r - 1])
    ensures SpaceStart(a, cursor, i) == r
  {
  }

  lemma CutAt(a: string, k: nat, sep: string, cursor: nat, s: nat) returns (c: nat)
    requires Flush(a, k, cursor) && Lies(a, k, sep) && s == k + |sep|
    ensures c == SpaceStart(a, cursor, s) && a[cursor..c] == a[cursor..k] + Core(sep)
  {
    var core := Core(sep);
    var r := k + |core|;
    forall j | r <= j < k + |sep| ensures IsSpace(a[j]) {
      assert a[k + (j - k)] == sep[j - k];
    }
    if core != "" {
      assert a[k + (|core| - 1)] == sep[|core| - 1] == core[|core| - 1];
    }
    SpaceStartIs(a, cursor, s, r);
    c := r;
    forall j | 0 <= j < |core| ensures a[k..r][j] == core[j] { assert a[k + j] == sep[j]; }
    assert a[cursor..r] == a[cursor..k] + a[k..r];
  }

  lemma TurnIs(a: string, i: nat, cursor: nat, s: nat, t: Token)
    requires cursor <= i <= |a| && SkipSeparators(a, i) == s < |a| && a[s] != '=' && t == TokenAt(a, s)
    ensures
      TurnAt(a, i, cursor) ==
        if IsAidName(a[s..t.nameEnd])
           then Cut(SpaceStart(a, cursor, s), if t.hasValue then t.next else t.nameEnd, t.next)
        else Past(t.next)
  {
  }

  /** The loop reaches the first attribute of the list at `s`, and leaves it at or behind its end. */
  lemma HeadRead(a: string, k: nat, list: seq<Attr>, tail: string, i: nat) returns (s: nat, t: Token)
    requires Holds(a, k, list, tail) && list != [] && Resumes(a, k, i)
    ensures s == SkipSeparators(a, i) == k + |list[0].sep| < |a| && a[s] != '=' && t == TokenAt(a, s)
    ensures a[s..t.nameEnd] == list[0].name && Resumes(a, k + |Text(list[0])|, t.next)
    ensures k + |Text(list[0])| == if t.hasValue then t.next else t.nameEnd
  {
    ResumeSkips(a, k, i);
    s, t := HeadToken(a, k, list, tail);
    NextResumes(a, s, k + |Text(list[0])|, list[0], t);
  }

  lemma HeadCut(a: string, k: nat, list: seq<Attr>, tail: string, cursor: nat, s: nat) returns (start: nat)
    requires Holds(a, k, list, tail) && list != [] && Flush(a, k, cursor) && s == k + |list[0].sep| <= |a|
    ensures start == SpaceStart(a, cursor, s) && a[cursor..start] == a[cursor..k] + Core(list[0].sep)
  {
    HoldsNext(a, k, list, tail);
    LiesSplit(a, k, list[0].sep, list[0].name + ValueText(list[0].value));
    start := CutAt(a, k, list[0].sep, cursor, s);
  }

  /** The loop's turn at the first attribute of the list. */
  lemma HeadTurn(a: string, k: nat, list: seq<Attr>, tail: string, i: nat, cursor: nat, end: nat)
    returns (start: nat, next: nat)
    requires Holds(a, k, list, tail) && list != [] && Resumes(a, k, i) && Flush(a, k, cursor) &&
             end == k + |Text(list[0])|
    ensures Resumes(a, end, next)
    ensures cursor <= start <= |a| && a[cursor..start] == a[cursor..k] + Core(list[0].sep)
    ensures TurnAt(a, i, cursor) == if IsAidName(list[0].name) then Cut(start, end, next) else Past(next)
  {
    var s, t := HeadRead(a, k, list, tail, i);
    start := HeadCut(a, k, list, tail, cursor, s);
    next := t.next;
    TurnIs(a, i, cursor, s, t);
  }

  lemma Regroup3(p: string, q: string, r: string)
    ensures p + (q + r) == (p + q) + r
  {
  }

  lemma HoldsEnd(a: string, k: nat, list: seq<Attr>, tail: string, end: nat)
    requires Holds(a, k, list, tail) && list != [] && end == k + |Text(list[0])|
    ensures Holds(a, end, list[1..], tail)
  {
    HoldsNext(a, k, list, tail);
  }

  lemma HeadFlush(a: string, k: nat, list: seq<Attr>, tail: string, cursor: nat, end: nat)
    requires Holds(a, k, list, tail) && list != [] && cursor <= k && end == k + |Text(list[0])|
    ensures Flush(a, end, cursor) && a[cursor..end] == a[cursor..k] + Text(list[0])
  {
    var t := Text(list[0]);
    HoldsNext(a, k, list, tail);
    TextEnds(list[0]);
    assert a[k + (|t| - 1)] == t[|t| - 1];
    assert a[cursor..k + |t|] == a[cursor..k] + a[k..k + |t|];
  }

  lemma StripCut(a: string, i: nat, cursor: nat, start: nat, stop: nat, next: nat, front: string, core: string,
                 more: string)
    requires cursor <= i <= |a| && TurnAt(a, i, cursor) == Cut(start, stop, next)
    requires a[cursor..start] == front + core && StripFrom(a, next, stop) == a[stop..stop] + more
    ensures StripFrom(a, i, cursor) == front + (core + more)
  {
    assert a[stop..stop] + more == more;
    Regroup3(front, core, more);
  }

  lemma StripPast(a: string, i: nat, cursor: nat, next: nat, front: string, text: string, more: string)
    requires cursor <= i <= |a| && TurnAt(a, i, cursor) == Past(next)
    requires StripFrom(a, next, cursor) == (front + text) + more
    ensures StripFrom(a, i, cursor) == front + (text + more)
  {
    Regroup3(front, text, more);
  }

  lemma StripOver(a: string, k: nat, tail: string, i: nat, cursor: nat)
    requires Holds(a, k, [], tail) && Resumes(a, k, i) && Flush(a, k, cursor)
    ensures StripFrom(a, i, cursor) == a[cursor..k] + tail
  {
    ResumeSkips(a, k, i);
    TailSkips(a, k, tail);
    assert a[cursor..] == a[cursor..k] + a[k..];
  }

  lemma {:induction false} StripIsStripped(a: string, k: nat, list: seq<Attr>, tail: string, i: nat, cursor: nat)
    requires Holds(a, k, list, tail) && Resumes(a, k, i) && Flush(a, k, cursor)
    ensures StripFrom(a, i, cursor) == a[cursor..k] + Stripped(list, tail)
    decreases |list|
  {
    if list == [] {
      StripOver(a, k, tail, i, cursor);
    } else {
      var end := k + |Text(list[0])|;
      var start, next := HeadTurn(a, k, list, tail, i, cursor, end);
      HoldsEnd(a, k, list, tail, end);
      if IsAidName(list[0].name) {
        StripIsStripped(a, end, list[1..], tail, next, end);
        StripCut(a, i, cursor, start, end, next, a[cursor..k], Core(list[0].sep), Stripped(list[1..], tail));
      } else {
        HeadFlush(a, k, list, tail, cursor, end);
        StripIsStripped(a, end, list[1..], tail, next, cursor);
        StripPast(a, i, cursor, next, a[cursor..k], Text(list[0]), Stripped(list[1..], tail));
      }
    }
  }

  /** Stripping regular text removes exactly the aid attributes, each with the white space in front of it. */
  lemma StripRegular(list: seq<Attr>, tail: string)
    requires Regular(list, tail)
    ensures Strip(Render(list, tail)) == Stripped(list, tail)
  {
    var a := Render(list, tail);
    assert a[0..] == a;
    StripIsStripped(a, 0, list, tail, 0, 0);
    assert a[0..0] + Stripped(list, tail) == Stripped(list, tail);
  }

  lemma LookupRegular(list: seq<Attr>, tail: string, target: string)
    requires Regular(list, tail)
    ensures AttrValue(Render(list, tail), target, 0) == Lookup(list, target)
  {
    var a := Render(list, tail);
    assert a[0..] == a;
    AttrValueIsLookup(a, 0, list, tail, target, 0);
  }
}

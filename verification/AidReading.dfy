/** Reading attribute text with an aid put into it, on every attribute text (internal/core/stamp.go).
    The aid is put behind a text that may be cut off anywhere, also inside a name or a value. Either the last attribute
    is finished, and then reading goes on in the aid as in an attribute of its own; or it has an equals sign and an
    unfinished value, and then the value swallows the aid. */
module AidReading {
  import opened AsciiText
  import opened TagSyntax
  import opened AttrText
  import opened AttrGrammar
  import opened AttrEdits

  /** Aids are words: content hashes are base 36. */
  predicate IsWord(s: string) {
    forall i :: 0 <= i < |s| ==> IsWordChar(s[i])
  }

  /** Reading `a` from `i` on, the strip loop meets no aid attribute. */
  predicate NoAid(a: string, i: nat)
    requires i <= |a|
    decreases |a| - i
  {
    match TurnAt(a, i, i)
    case Over => true
    case Past(next) => NoAid(a, next)
    case Cut(_, _, _) => false
  }

  /** A token that reaches the end of `q` with its value missing or its quote not closed. */
  predicate Unfinished(q: string, t: Token)
    requires t.hasValue ==> 1 <= t.valueStart <= t.valueStop <= |q|
  {
    && t.hasValue && t.valueStop == t.next == |q|
    && (t.valueStart == |q| || q[t.valueStart - 1] == '"' || q[t.valueStart - 1] == '\'')
  }

  /** Reading `q` from `i` on, the strip loop ends inside a value: behind a dangling `=`, or in a quote. */
  predicate Pending(q: string, i: nat)
    requires i <= |q|
    decreases |q| - i
  {
    var s := SkipSeparators(q, i);
    if s == |q| then false
    else if q[s] == '=' then Pending(q, s + 1)
    else Unfinished(q, TokenAt(q, s)) || Pending(q, TokenAt(q, s).next)
  }

  /** The place where the aid goes lies inside an unfinished value. */
  predicate Dangles(a: string, selfClose: bool) {
    Pending(a[..InsertAt(a, selfClose)], 0)
  }

  // ----- the name that is inserted

  lemma LowerFixed(s: string)
    requires forall i :: 0 <= i < |s| ==> LowerChar(s[i]) == s[i]
    ensures Lower(s) == s
  {
  }

  predicate IsPlain(s: string) {
    forall i :: 0 <= i < |s| ==> 'a' <= s[i] <= 'z' || s[i] == '-'
  }

  lemma PlainName(s: string)
    requires IsPlain(s) && s != ""
    ensures Lower(s) == s && IsNameText(s)
  {
    LowerFixed(s);
  }

  lemma AidIsPlain()
    ensures IsPlain(AID_NAME) && |AID_NAME| == 13
  {
  }

  lemma LowerAid()
    ensures IsAidName(AID_NAME) && IsNameText(AID_NAME) && |AID_NAME| == 13
  {
    AidIsPlain();
    PlainName(AID_NAME);
  }

  lemma SpaceStartAt(b: string, cursor: nat, p: nat)
    requires cursor <= p < |b| && b[p] == ' ' && (p > cursor ==> !IsSpace(b[p - 1]))
    ensures SpaceStart(b, cursor, p + 1) == p
  {
  }

  lemma WordHasNoQuote(aid: string)
    requires IsWord(aid)
    ensures '"' !in aid && '\'' !in aid && RegularValue(Quoted("", "", '"', aid))
    ensures forall i :: 0 <= i < |aid| ==> !IsSeparator(aid[i]) && aid[i] != '=' && aid[i] != '>'
  {
  }

  // ----- stripping leaves text without aid attributes alone, and only that

  lemma CutIsLong(a: string, i: nat, cursor: nat)
    requires cursor <= i <= |a| && TurnAt(a, i, cursor).Cut?
    ensures TurnAt(a, i, cursor).start + 13 <= TurnAt(a, i, cursor).stop
  {
    var s := SkipSeparators(a, i);
    var name := a[s..TokenAt(a, s).nameEnd];
    AidIsPlain();
    assert |Lower(name)| == |name|;
  }

  /** The turn's kind does not depend on what was copied before. */
  lemma NoAidIs(a: string, i: nat, cursor: nat)
    requires cursor <= i <= |a|
    ensures
      match TurnAt(a, i, cursor)
      case Over => NoAid(a, i)
      case Past(next) => NoAid(a, i) <==> NoAid(a, next)
      case Cut(_, _, _) => !NoAid(a, i)
  {
  }

  lemma StripsPast(a: string, i: nat, cursor: nat)
    requires cursor <= i <= |a|
    ensures
      match TurnAt(a, i, cursor)
      case Over => StripFrom(a, i, cursor) == a[cursor..]
      case Past(next) => StripFrom(a, i, cursor) == StripFrom(a, next, cursor)
      case Cut(start, stop, next) => StripFrom(a, i, cursor) == a[cursor..start] + StripFrom(a, next, stop)
  {
  }

  /** Stripping the text from `i` on, copied from `cursor` on, leaves `r`. */
  predicate Shrinks(a: string, i: nat, cursor: nat, r: string)
    requires cursor <= i <= |a|
  {
    if NoAid(a, i) then r == a[cursor..] else |r| + 13 <= |a| - cursor
  }

  lemma {:induction false} StripShrinks(a: string, i: nat, cursor: nat)
    requires cursor <= i <= |a|
    ensures Shrinks(a, i, cursor, StripFrom(a, i, cursor)) && |StripFrom(a, i, cursor)| <= |a| - cursor
    decreases |a| - i
  {
    NoAidIs(a, i, cursor);
    StripsPast(a, i, cursor);
    match TurnAt(a, i, cursor)
    case Over =>
    case Past(next) => StripShrinks(a, next, cursor);
    case Cut(start, stop, next) =>
      CutIsLong(a, i, cursor);
      StripShrinks(a, next, stop);
  }

  lemma StripFixed(a: string)
    ensures Strip(a) == a <==> NoAid(a, 0)
    ensures Strip(a) != a ==> |Strip(a)| + 13 <= |a|
  {
    StripShrinks(a, 0, 0);
  }

  // ----- tokens and what is put behind them

  /** `more` starts with `n` separators; what then follows is no equals sign, and white space ends values. */
  predicate Blank(more: string, n: nat) {
    && n <= |more| && AllSeparators(more[..n])
    && (n < |more| ==> n > 0 && IsSpace(more[0]) && !IsSeparator(more[n]) && more[n] != '=')
  }

  lemma TokenGoesOn(q: string, more: string, s: nat)
    requires s < |q| && !IsSeparator(q[s]) && TokenAt(q, s).next < |q|
    ensures (q + more)[s] == q[s] && TokenAt(q + more, s) == TokenAt(q, s)
  {
    var a := q + more;
    var ne := NameStop(q, s);
    NameIs(a, s, ne);
    var eq := SkipSpace(q, ne);
    SpaceIs(a, ne, eq);
    if q[eq] == '=' {
      var v := SkipSpace(q, eq + 1);
      SpaceIs(a, eq + 1, v);
      if q[v] == '"' || q[v] == '\'' {
        var e := CharAt(q, q[v], v + 1);
        CharAtIs(a, q[v], v + 1, e);
        QuotedToken(q, s, eq, v, e);
        QuotedToken(a, s, eq, v, e);
      } else {
        BareIs(a, v, SpaceStop(q, v));
        BareToken(q, s, eq, v, SpaceStop(q, v));
        BareToken(a, s, eq, v, SpaceStop(q, v));
      }
    }
  }

  lemma ClosedValueGoesOn(q: string, more: string, s: nat)
    requires s < |q| && !IsSeparator(q[s])
    requires TokenAt(q, s).hasValue && TokenAt(q, s).valueStop < TokenAt(q, s).next
    ensures (q + more)[s] == q[s] && TokenAt(q + more, s) == TokenAt(q, s)
  {
    var a := q + more;
    var ne := NameStop(q, s);
    NameIs(a, s, ne);
    var eq := SkipSpace(q, ne);
    SpaceIs(a, ne, eq);
    var v := SkipSpace(q, eq + 1);
    SpaceIs(a, eq + 1, v);
    var e := CharAt(q, q[v], v + 1);
    CharAtIs(a, q[v], v + 1, e);
    QuotedToken(q, s, eq, v, e);
    QuotedToken(a, s, eq, v, e);
  }

  lemma BlankChars(q: string, more: string, n: nat)
    requires Blank(more, n)
    ensures forall j :: |q| <= j < |q| + n ==> IsSeparator((q + more)[j]) && (q + more)[j] != '='
    ensures n < |more| ==> IsSpace((q + more)[|q|]) && !IsSeparator((q + more)[|q| + n]) && (q + more)[|q| + n] != '='
  {
    assert forall j :: 0 <= j < n ==> more[..n][j] == more[j] == (q + more)[|q| + j];
  }

  lemma BareGoesOn(q: string, more: string, n: nat, s: nat)
    requires s < |q| && !IsSeparator(q[s]) && Blank(more, n)
    requires var t := TokenAt(q, s); t.hasValue && t.valueStop == t.next == |q| && !Unfinished(q, t)
    ensures (q + more)[s] == q[s]
    ensures TokenAt(q + more, s).nameEnd == TokenAt(q, s).nameEnd
    ensures |q| <= TokenAt(q + more, s).next <= |q| + n
  {
    var a, t := q + more, TokenAt(q, s);
    var ne := NameStop(q, s);
    NameIs(a, s, ne);
    var eq, v := SkipSpace(q, ne), t.valueStart;
    SpaceIs(a, ne, eq);
    SpaceIs(a, eq + 1, v);
    BareStops(q, more, n, v);
    BareToken(a, s, eq, v, SpaceStop(a, v));
  }

  lemma NameGoesOn(q: string, more: string, n: nat, s: nat)
    requires s < |q| && !IsSeparator(q[s]) && Blank(more, n)
    requires !TokenAt(q, s).hasValue && NameStop(q, s) == |q|
    ensures (q + more)[s] == q[s]
    ensures TokenAt(q + more, s).nameEnd == TokenAt(q, s).nameEnd
    ensures |q| <= TokenAt(q + more, s).next <= |q| + n
  {
    BlankChars(q, more, n);
    NameIs(q + more, s, |q|);
    var eq := SkipSpace(q + more, |q|);
  }

  /** A finished last token keeps its name, and reading goes on in the separators behind it. */
  lemma LastTokenGoesOn(q: string, more: string, n: nat, s: nat)
    requires s < |q| && !IsSeparator(q[s]) && TokenAt(q, s).next == |q| && !IsSpace(q[|q| - 1])
    requires !Unfinished(q, TokenAt(q, s)) && Blank(more, n)
    ensures (q + more)[s] == q[s]
    ensures TokenAt(q + more, s).nameEnd == TokenAt(q, s).nameEnd
    ensures |q| <= TokenAt(q + more, s).next <= |q| + n
  {
    var t := TokenAt(q, s);
    if t.hasValue && t.valueStop < t.next {
      ClosedValueGoesOn(q, more, s);
    } else if t.hasValue {
      BareGoesOn(q, more, n, s);
    } else {
      NameGoesOn(q, more, n, s);
    }
  }

  lemma BareStops(q: string, more: string, n: nat, v: nat)
    requires v < |q| && SpaceStop(q, v) == |q| && Blank(more, n)
    ensures |q| <= SpaceStop(q + more, v) <= |q| + n
  {
    var a := q + more;
    BlankChars(q, more, n);
    assert forall j :: v <= j < |q| ==> a[j] == q[j];
  }

  // ----- the inserted attribute

  /** `b` is `q` with an aid attribute and separators behind it. */
  predicate Stamped(q: string, aid: string, rest: string, b: string) {
    && IsWord(aid) && AllSeparators(rest) && (q != "" ==> !IsSpace(q[|q| - 1]))
    && b == q + (AidText(aid) + rest)
  }

  lemma AidTextIs(aid: string)
    ensures AidText(aid) == " " + (AID_NAME + ValueText(Quoted("", "", '"', aid)))
    ensures |AID_NAME| == 13 && |AidText(aid)| == 17 + |aid|
    ensures AidText(aid)[0] == ' ' && AidText(aid)[1] == 'd'
  {
    assert ValueText(Quoted("", "", '"', aid)) == "=" + ['"'] + aid + ['"'];
  }

  lemma StampedFrame(q: string, aid: string, rest: string, b: string)
    requires Stamped(q, aid, rest, b)
    ensures b[..|q|] == q && |b| == |q| + 17 + |aid| + |rest|
    ensures Lies(b, |q|, AidText(aid)) && Lies(b, |q| + 17 + |aid|, rest)
    ensures b[|q| + 17 + |aid|..] == rest
  {
    AidTextIs(aid);
    ThreeParts(q, AidText(aid), rest, b);
  }

  lemma ThreeParts(q: string, t: string, r: string, b: string)
    requires b == q + (t + r)
    ensures b[..|q|] == q && |b| == |q| + |t| + |r|
    ensures Lies(b, |q|, t) && Lies(b, |q| + |t|, r) && b[|q| + |t|..] == r
  {
    SuffixLiesIn(q, t + r);
    LiesSplit(b, |q|, t, r);
    assert b[|q|..] == t + r && b[|q| + |t|..] == b[|q|..][|t|..];
  }

  lemma StampedAttr(b: string, p: nat, aid: string)
    requires Lies(b, p, AidText(aid))
    ensures p + 17 + |aid| <= |b| && b[p] == ' ' && Lies(b, p + 1, AID_NAME)
    ensures Lies(b, p + 14, ValueText(Quoted("", "", '"', aid)))
  {
    AidTextIs(aid);
    var v := ValueText(Quoted("", "", '"', aid));
    LiesSplit(b, p, " ", AID_NAME + v);
    LiesSplit(b, p + 1, AID_NAME, v);
    assert b[p + 0] == " "[0];
  }

  lemma StampedQuotes(b: string, p: nat, aid: string)
    requires Lies(b, p + 14, ValueText(Quoted("", "", '"', aid)))
    ensures p + 16 + |aid| < |b| && b[p + 14] == '=' && b[p + 15] == b[p + 16 + |aid|] == '"' && Lies(b, p + 16, aid)
  {
    QuotedTextIs(aid);
    LiesSplit(b, p + 14, ['=', '"'], aid + ['"']);
    LiesSplit(b, p + 16, aid, ['"']);
    assert b[p + 14 + 0] == ['=', '"'][0] && b[p + 14 + 1] == ['=', '"'][1] && b[p + 16 + |aid| + 0] == ['"'][0];
  }

  lemma QuotedTextIs(aid: string)
    ensures ValueText(Quoted("", "", '"', aid)) == ['=', '"'] + (aid + ['"'])
  {
    assert "" + "=" == ['='] && ['='] + "" == ['='];
    assert ['='] + ['"'] == ['=', '"'];
  }

  lemma SuffixLiesIn(q: string, more: string)
    ensures Lies(q + more, |q|, more)
  {
  }

  lemma RestIsOver(b: string, i: nat, cursor: nat)
    requires cursor <= i <= |b| && forall j :: i <= j < |b| ==> IsSeparator(b[j])
    ensures TurnAt(b, i, cursor) == Over
  {
    SeparatorsAre(b, i, |b|);
  }

  lemma RestSeparates(b: string, k: nat, rest: string)
    requires Lies(b, k, rest) && AllSeparators(rest) && k + |rest| == |b|
    ensures forall j :: k <= j < |b| ==> IsSeparator(b[j])
  {
    forall j | k <= j < |b| ensures IsSeparator(b[j]) {
      assert b[k + (j - k)] == rest[j - k];
    }
  }

  lemma AidToken(b: string, p: nat, aid: string)
    requires Lies(b, p, AidText(aid)) && IsWord(aid)
    ensures p + 17 + |aid| <= |b| && b[p] == ' ' && b[p + 1] == 'd' && b[p + 1..p + 14] == AID_NAME
    ensures TokenAt(b, p + 1) == Token(p + 14, true, p + 16, p + 16 + |aid|, p + 17 + |aid|)
  {
    StampedAttr(b, p, aid);
    AidTextIs(aid);
    assert b[p + 1] == AidText(aid)[1];
    LowerAid();
    AidValueRegular(aid);
    AidTokenAt(b, p, aid, AID_NAME, Quoted("", "", '"', aid));
  }

  lemma AidTokenAt(b: string, p: nat, aid: string, n: string, v: Value)
    requires p + 1 < |b| && b[p + 1] == 'd' && IsNameText(n) && |n| == 13
    requires v == Quoted("", "", '"', aid) && RegularValue(v)
    requires Lies(b, p + 1, n) && Lies(b, p + 14, ValueText(v))
    ensures TokenAt(b, p + 1) == Token(p + 14, true, p + 16, p + 16 + |aid|, p + 17 + |aid|)
    ensures p + 14 <= |b| && b[p + 1..p + 14] == n
  {
    TokenQuoted(b, p + 1, n, v);
    LiesSlice(b, p + 1, n);
  }

  lemma AidValueRegular(aid: string)
    requires IsWord(aid)
    ensures RegularValue(Quoted("", "", '"', aid))
  {
    WordHasNoQuote(aid);
  }

  predicate AidAhead(b: string, s: nat, t: Token) {
    s < |b| && !IsSeparator(b[s]) && b[s] != '=' && TokenAt(b, s) == t && IsAidName(b[s..t.nameEnd]) && t.hasValue
  }

  lemma StripsOn(b: string, i: nat, cursor: nat, start: nat, stop: nat, next: nat)
    requires cursor <= i <= |b| && TurnAt(b, i, cursor) == Cut(start, stop, next)
    ensures StripFrom(b, i, cursor) == b[cursor..start] + StripFrom(b, next, stop)
  {
  }

  lemma StripsRest(b: string, i: nat)
    requires i <= |b| && forall j :: i <= j < |b| ==> IsSeparator(b[j])
    ensures StripFrom(b, i, i) == b[i..]
  {
    RestIsOver(b, i, i);
  }

  lemma AidIsAhead(b: string, p: nat, aid: string) returns (t: Token)
    requires Lies(b, p, AidText(aid)) && IsWord(aid)
    ensures AidAhead(b, p + 1, t) && t.next == p + 17 + |aid|
  {
    AidToken(b, p, aid);
    LowerAid();
    t := Token(p + 14, true, p + 16, p + 16 + |aid|, p + 17 + |aid|);
  }

  lemma StampIsAhead(q: string, aid: string, rest: string, b: string) returns (t: Token)
    requires Stamped(q, aid, rest, b)
    ensures AidAhead(b, |q| + 1, t) && t.next == |q| + 17 + |aid|
  {
    StampedFrame(q, aid, rest, b);
    t := AidIsAhead(b, |q|, aid);
  }

  lemma SkipToAid(q: string, aid: string, rest: string, b: string, i: nat)
    requires Stamped(q, aid, rest, b) && i <= |q| + 1
    requires forall j :: i <= j < |q| ==> IsSeparator(q[j])
    ensures i <= |q| + 1 < |b| && SkipSeparators(b, i) == |q| + 1 && b[|q| + 1] == 'd' && b[|q|] == ' '
  {
    var p := |q|;
    StampedFrame(q, aid, rest, b);
    AidToken(b, p, aid);
    forall j | i <= j < p + 1 ensures IsSeparator(b[j]) {
      assert j < p ==> b[..p][j] == b[j];
    }
    SeparatorsAre(b, i, p + 1);
  }

  lemma SpaceToAid(q: string, aid: string, rest: string, b: string, cursor: nat)
    requires Stamped(q, aid, rest, b) && cursor <= |q|
    ensures |q| + 1 <= |b| && SpaceStart(b, cursor, |q| + 1) == |q|
  {
    SkipToAid(q, aid, rest, b, |q|);
    StampedFrame(q, aid, rest, b);
    assert |q| > cursor ==> b[|q| - 1] == b[..|q|][|q| - 1];
    SpaceStartAt(b, cursor, |q|);
  }

  /** In the separators in front of the inserted attribute, the strip loop's next turn removes it. */
  lemma AidTurn(q: string, aid: string, rest: string, b: string, i: nat, cursor: nat, e: nat)
    requires Stamped(q, aid, rest, b) && cursor <= |q| && cursor <= i <= |q| + 1 && e == |q| + 17 + |aid|
    requires forall j :: i <= j < |q| ==> IsSeparator(q[j])
    ensures i <= |b| && TurnAt(b, i, cursor) == Cut(|q|, e, e)
  {
    SkipToAid(q, aid, rest, b, i);
    SpaceToAid(q, aid, rest, b, cursor);
    var t := StampIsAhead(q, aid, rest, b);
    TurnIsCutIf(b, i, cursor, |q|, t, e);
  }

  lemma TurnIsCutIf(b: string, i: nat, cursor: nat, start: nat, t: Token, e: nat)
    ensures cursor <= i <= |b| && cursor <= start < |b| && SkipSeparators(b, i) == start + 1 &&
            AidAhead(b, start + 1, t) &&
            SpaceStart(b, cursor, start + 1) == start && t.next == e ==>
            TurnAt(b, i, cursor) == Cut(start, e, e)
  {
  }

  /** ... and nothing behind it is removed. */
  lemma AidGone(q: string, aid: string, rest: string, b: string, i: nat, cursor: nat)
    requires Stamped(q, aid, rest, b) && cursor <= |q| && cursor <= i <= |q| + 1
    requires forall j :: i <= j < |q| ==> IsSeparator(q[j])
    ensures i <= |b| && StripFrom(b, i, cursor) == (q + rest)[cursor..]
  {
    var e := |q| + 17 + |aid|;
    BehindAid(q, aid, rest, b, e);
    AidTurn(q, aid, rest, b, i, cursor, e);
    StripsOn(b, i, cursor, |q|, e, e);
    WithoutAid(q, rest, b, cursor);
  }

  lemma BehindAid(q: string, aid: string, rest: string, b: string, e: nat)
    requires Stamped(q, aid, rest, b) && e == |q| + 17 + |aid|
    ensures e <= |b| && b[..|q|] == q && StripFrom(b, e, e) == rest
  {
    StampedFrame(q, aid, rest, b);
    RestSeparates(b, e, rest);
    StripsRest(b, e);
  }

  lemma WithoutAid(q: string, rest: string, b: string, cursor: nat)
    requires |q| <= |b| && b[..|q|] == q && cursor <= |q|
    ensures b[cursor..|q|] + rest == (q + rest)[cursor..]
  {
    assert b[cursor..|q|] == b[..|q|][cursor..] == q[cursor..];
  }

  // ----- the text in front of the inserted attribute is read as before

  /** Where reading goes on behind the attribute at or after `i`. */
  function NextOf(q: string, i: nat): (r: nat)
    requires i <= |q| && SkipSeparators(q, i) < |q|
    ensures i < r <= |q|
  {
    var s := SkipSeparators(q, i);
    if q[s] == '=' then s + 1 else TokenAt(q, s).next
  }

  predicate AidAt(q: string, i: nat)
    requires i <= |q| && SkipSeparators(q, i) < |q|
  {
    var s := SkipSeparators(q, i);
    q[s] != '=' && IsAidName(q[s..TokenAt(q, s).nameEnd])
  }

  predicate UnfinishedAt(q: string, i: nat)
    requires i <= |q| && SkipSeparators(q, i) < |q|
  {
    var s := SkipSeparators(q, i);
    q[s] != '=' && Unfinished(q, TokenAt(q, s))
  }

  lemma SameSeparators(q: string, more: string, i: nat)
    requires i <= |q| && SkipSeparators(q, i) < |q|
    ensures SkipSeparators(q + more, i) == SkipSeparators(q, i)
    ensures (q + more)[SkipSeparators(q, i)] == q[SkipSeparators(q, i)]
  {
    SeparatorsAre(q + more, i, SkipSeparators(q, i));
  }

  lemma TokenTurn(a: string, i: nat, cursor: nat, s: nat)
    requires cursor <= i <= |a| && SkipSeparators(a, i) == s < |a| && a[s] != '='
    ensures IsAidName(a[s..TokenAt(a, s).nameEnd]) ==> TurnAt(a, i, cursor).Cut?
    ensures !IsAidName(a[s..TokenAt(a, s).nameEnd]) ==> TurnAt(a, i, cursor) == Past(TokenAt(a, s).next)
  {
  }

  /** The turn at an attribute of `q` is the same whatever separators are put behind `q`. */
  lemma SameTurn(q: string, more: string, n: nat, i: nat, cursor: nat) returns (next: nat)
    requires cursor <= i <= |q| && SkipSeparators(q, i) < |q| && !IsSpace(q[|q| - 1])
    requires !UnfinishedAt(q, i) && Blank(more, n)
    ensures if NextOf(q, i) < |q| then next == NextOf(q, i) else |q| <= next <= |q| + n
    ensures if AidAt(q, i) then TurnAt(q + more, i, cursor).Cut? else TurnAt(q + more, i, cursor) == Past(next)
  {
    var s, a := SkipSeparators(q, i), q + more;
    SameSeparators(q, more, i);
    if q[s] == '=' {
      next := s + 1;
    } else {
      if NextOf(q, i) < |q| {
        TokenGoesOn(q, more, s);
      } else {
        LastTokenGoesOn(q, more, n, s);
      }
      next := TokenAt(a, s).next;
      assert a[s..TokenAt(a, s).nameEnd] == q[s..TokenAt(q, s).nameEnd];
      TokenTurn(a, i, cursor, s);
    }
  }

  lemma BlankStamp(aid: string, rest: string)
    requires AllSeparators(rest)
    ensures Blank(AidText(aid) + rest, 1) && Blank(rest, |rest|)
  {
    AidTextIs(aid);
    assert rest[..|rest|] == rest;
    assert (AidText(aid) + rest)[..1] == " ";
  }

  lemma {:induction false} StripsBack(q: string, aid: string, rest: string, b: string, i: nat, cursor: nat)
    requires Stamped(q, aid, rest, b) && cursor <= i <= |q| && !Pending(q, i) && NoAid(q + rest, i)
    ensures i <= |b| && StripFrom(b, i, cursor) == (q + rest)[cursor..]
    decreases |q| - i
  {
    BlankStamp(aid, rest);
    if SkipSeparators(q, i) == |q| {
      AidGone(q, aid, rest, b, i, cursor);
    } else {
      var na := SameTurn(q, rest, |rest|, i, i);
      var nb := SameTurn(q, AidText(aid) + rest, 1, i, cursor);
      if NextOf(q, i) < |q| {
        StripsBack(q, aid, rest, b, na, cursor);
      } else {
        AidGone(q, aid, rest, b, nb, cursor);
      }
    }
  }

  // ----- an unfinished value swallows the inserted attribute

  lemma InsertedChars(b: string, p: nat, aid: string)
    requires Lies(b, p, AidText(aid)) && IsWord(aid)
    ensures p + 17 + |aid| <= |b| && b[p] == ' ' && b[p + 15] == b[p + 16 + |aid|] == '"'
    ensures forall j :: p + 1 <= j < p + 17 + |aid| ==> !IsSpace(b[j]) && b[j] != '\'' && b[j] != '>'
    ensures forall j :: p <= j < p + 15 ==> b[j] != '"'
    ensures forall j :: p + 16 <= j < p + 17 + |aid| ==> !IsSeparator(b[j]) && b[j] != '='
  {
    StampedAttr(b, p, aid);
    StampedQuotes(b, p, aid);
    AidIsPlain();
    var n: string := AID_NAME;
    forall j | p + 1 <= j < p + 14 ensures 'a' <= b[j] <= 'z' || b[j] == '-' {
      assert b[p + 1 + (j - p - 1)] == n[j - p - 1];
    }
    forall j | p + 16 <= j < p + 16 + |aid| ensures IsWordChar(b[j]) {
      assert b[p + 16 + (j - p - 16)] == aid[j - p - 16];
    }
  }

  /** Up to the equals sign an unfinished attribute is read as before. */
  lemma UnfinishedHead(q: string, more: string, s: nat) returns (v: nat)
    requires s < |q| && !IsSeparator(q[s]) && Unfinished(q, TokenAt(q, s)) && !IsSpace(q[|q| - 1])
    ensures
      var ne := TokenAt(q, s).nameEnd;
      var eq := SkipSpace(q, ne);
      && (q + more)[s] == q[s] && NameStop(q + more, s) == ne < |q|
      && SkipSpace(q + more, ne) == eq < |q| && (q + more)[eq] == '=' && v == eq + 1 <= |q|
    ensures v == |q| || SkipSpace(q, v) < |q|
  {
    var a, ne := q + more, NameStop(q, s);
    NameIs(a, s, ne);
    v := SkipSpace(q, ne) + 1;
    SpaceIs(a, ne, v - 1);
  }

  lemma QuoteIsNoAid(n: string)
    requires n != "" && n[|n| - 1] == '"'
    ensures !IsAidName(n)
  {
    var m: string := AID_NAME;
    AidIsPlain();
    assert Lower(n)[|n| - 1] == '"' != m[|m| - 1];
  }

  /** The quote that ends the aid, taken for a name, with separators behind it. */
  lemma LeftoverName(b: string, i: nat, e: nat)
    requires i < e <= |b| && b[e - 1] == '"'
    requires forall j :: i <= j < e ==> !IsSeparator(b[j]) && b[j] != '='
    requires forall j :: e <= j < |b| ==> IsSeparator(b[j])
    ensures NoAid(b, i)
  {
    SeparatorsAre(b, i, i);
    NameIs(b, i, e);
    assert b[i..e][e - 1 - i] == '"';
    QuoteIsNoAid(b[i..e]);
    TokenTurn(b, i, i, i);
    var next := TokenAt(b, i).next;
    RestIsOver(b, next, next);
  }

  /** Behind the swallowed text the loop finds nothing to remove. */
  lemma NothingBehind(q: string, aid: string, rest: string, b: string, i: nat)
    requires Stamped(q, aid, rest, b) && i <= |b|
    requires i >= |q| + 17 + |aid| || i == |q| + 16
    ensures NoAid(b, i)
  {
    var e := |q| + 17 + |aid|;
    StampedFrame(q, aid, rest, b);
    RestSeparates(b, e, rest);
    if i >= e {
      RestIsOver(b, i, i);
    } else {
      InsertedChars(b, |q|, aid);
      LeftoverName(b, i, e);
    }
  }

  lemma SwallowDangling(q: string, aid: string, rest: string, b: string)
    requires Stamped(q, aid, rest, b)
    ensures
      var w := |q| + 1;
      |q| < |b| && SkipSpace(b, |q|) == w < |b| && b[w] != '"' && b[w] != '\'' && SpaceStop(b, w) >= |q| + 17 + |aid|
  {
    StampedFrame(q, aid, rest, b);
    InsertedReads(b, |q|, aid);
  }

  lemma InsertedReads(b: string, p: nat, aid: string)
    requires Lies(b, p, AidText(aid)) && IsWord(aid)
    ensures p + 17 + |aid| <= |b| && SkipSpace(b, p) == p + 1 && b[p + 1] != '"' && b[p + 1] != '\''
    ensures SpaceStop(b, p + 1) >= p + 17 + |aid|
  {
    InsertedChars(b, p, aid);
    OneSpace(b, p, p + 17 + |aid|);
  }

  /** A white space with an unquoted value behind it that reaches up to `e`. */
  lemma OneSpace(b: string, p: nat, e: nat)
    requires p + 15 < e <= |b| && IsSpace(b[p])
    requires forall j :: p + 1 <= j < e ==> !IsSpace(b[j]) && b[j] != '\'' && b[j] != '>'
    requires forall j :: p <= j < p + 15 ==> b[j] != '"'
    ensures SkipSpace(b, p) == p + 1 && b[p + 1] != '"' && b[p + 1] != '\'' && SpaceStop(b, p + 1) >= e
  {
    SpaceIs(b, p, p + 1);
  }

  lemma Front(q: string, aid: string, rest: string, b: string)
    requires Stamped(q, aid, rest, b)
    ensures |b| == |q| + 17 + |aid| + |rest| && forall j :: 0 <= j < |q| ==> b[j] == q[j]
  {
    StampedFrame(q, aid, rest, b);
    forall j | 0 <= j < |q| ensures b[j] == q[j] { assert b[..|q|][j] == b[j]; }
  }

  lemma SwallowDouble(q: string, aid: string, rest: string, b: string, w: nat)
    requires Stamped(q, aid, rest, b) && w < |q| && CharAt(q, '"', w + 1) == |q|
    ensures |q| + 17 + |aid| <= |b| && CharAt(b, '"', w + 1) == |q| + 15
  {
    StampedFrame(q, aid, rest, b);
    InsertedChars(b, |q|, aid);
    Front(q, aid, rest, b);
    CharAtIs(b, '"', w + 1, |q| + 15);
  }

  lemma NoSingleBehind(q: string, aid: string, rest: string, b: string)
    requires Stamped(q, aid, rest, b)
    ensures |q| + 17 + |aid| <= |b| && forall j :: |q| <= j < |b| ==> b[j] != '\''
  {
    var e := |q| + 17 + |aid|;
    InsertedEnd(q, aid, rest, b, e);
    forall j | |q| <= j < |b| ensures b[j] != '\'' {
      assert j < e || IsSeparator(b[j]);
    }
  }

  lemma InsertedEnd(q: string, aid: string, rest: string, b: string, e: nat)
    requires Stamped(q, aid, rest, b) && e == |q| + 17 + |aid|
    ensures e <= |b| && b[|q|] == ' '
    ensures forall j :: |q| + 1 <= j < e ==> b[j] != '\''
    ensures forall j :: e <= j < |b| ==> IsSeparator(b[j])
  {
    StampedFrame(q, aid, rest, b);
    InsertedChars(b, |q|, aid);
    RestSeparates(b, e, rest);
  }

  lemma SwallowSingle(q: string, aid: string, rest: string, b: string, w: nat)
    requires Stamped(q, aid, rest, b) && w < |q| && CharAt(q, '\'', w + 1) == |q|
    ensures |q| + 17 + |aid| <= |b| && CharAt(b, '\'', w + 1) == |b|
  {
    NoSingleBehind(q, aid, rest, b);
    Front(q, aid, rest, b);
    CharAtIs(b, '\'', w + 1, |b|);
  }

  lemma SwallowQuoted(q: string, aid: string, rest: string, b: string, w: nat)
    requires Stamped(q, aid, rest, b) && w < |q| && (q[w] == '"' || q[w] == '\'') && CharAt(q, q[w], w + 1) == |q|
    ensures |q| + 17 + |aid| <= |b| && b[w] == q[w]
    ensures CharAt(b, q[w], w + 1) == |q| + 15 || CharAt(b, q[w], w + 1) == |b|
  {
    Front(q, aid, rest, b);
    if q[w] == '"' {
      SwallowDouble(q, aid, rest, b, w);
    } else {
      SwallowSingle(q, aid, rest, b, w);
    }
  }

  lemma TokenOfBare(a: string, s: nat, eq: nat, v: nat) returns (next: nat)
    requires s < |a| && !IsSeparator(a[s]) && SkipSpace(a, NameStop(a, s)) == eq < |a| && a[eq] == '='
    requires SkipSpace(a, eq + 1) == v < |a| && a[v] != '"' && a[v] != '\''
    ensures TokenAt(a, s).nameEnd == NameStop(a, s) && next == TokenAt(a, s).next == SpaceStop(a, v)
  {
    next := SpaceStop(a, v);
  }

  lemma TokenOfQuoted(a: string, s: nat, eq: nat, v: nat) returns (next: nat)
    requires s < |a| && !IsSeparator(a[s]) && SkipSpace(a, NameStop(a, s)) == eq < |a| && a[eq] == '='
    requires SkipSpace(a, eq + 1) == v < |a| && (a[v] == '"' || a[v] == '\'')
    ensures TokenAt(a, s).nameEnd == NameStop(a, s)
    ensures next == TokenAt(a, s).next == var e := CharAt(a, a[v], v + 1); if e < |a| then e + 1 else e
  {
    next := TokenAt(a, s).next;
  }

  /** The unfinished value of the attribute at `s` reaches into the inserted attribute or past it. */
  lemma UnfinishedSwallows(q: string, aid: string, rest: string, b: string, s: nat) returns (next: nat)
    requires Stamped(q, aid, rest, b) && s < |q| && !IsSeparator(q[s]) && Unfinished(q, TokenAt(q, s))
    ensures s < |b| && b[s] == q[s] && TokenAt(b, s).nameEnd == TokenAt(q, s).nameEnd <= |q|
    ensures next == TokenAt(b, s).next <= |b| && (next >= |q| + 17 + |aid| || next == |q| + 16)
  {
    var v := UnfinishedHead(q, AidText(aid) + rest, s);
    Front(q, aid, rest, b);
    if v == |q| {
      next := DanglingGoesOn(q, aid, rest, b, s, v - 1);
    } else {
      next := QuoteGoesOn(q, aid, rest, b, s, v);
    }
  }

  lemma DanglingGoesOn(q: string, aid: string, rest: string, b: string, s: nat, eq: nat) returns (next: nat)
    requires Stamped(q, aid, rest, b) && s < |q| < |b| && !IsSeparator(b[s]) && SkipSpace(b, NameStop(b, s)) == eq
    requires eq + 1 == |q| && b[eq] == '='
    ensures TokenAt(b, s).nameEnd == NameStop(b, s)
    ensures next == TokenAt(b, s).next <= |b| && next >= |q| + 17 + |aid|
  {
    SwallowDangling(q, aid, rest, b);
    next := TokenOfBare(b, s, eq, |q| + 1);
  }

  lemma QuoteGoesOn(q: string, aid: string, rest: string, b: string, s: nat, v: nat) returns (next: nat)
    requires Stamped(q, aid, rest, b) && s < |q| && !IsSeparator(q[s]) && Unfinished(q, TokenAt(q, s))
    requires SkipSpace(q, TokenAt(q, s).nameEnd) + 1 == v <= |q| && SkipSpace(q, v) < |q| < |b|
    requires !IsSeparator(b[s]) && SkipSpace(b, NameStop(b, s)) == v - 1 && b[v - 1] == '='
    ensures TokenAt(b, s).nameEnd == NameStop(b, s)
    ensures next == TokenAt(b, s).next <= |b| && (next >= |q| + 17 + |aid| || next == |q| + 16)
  {
    Front(q, aid, rest, b);
    var w := UnfinishedQuote(q, s, v);
    SpaceIs(b, v, w);
    SwallowQuoted(q, aid, rest, b, w);
    next := TokenOfQuoted(b, s, v - 1, w);
  }

  lemma UnfinishedQuote(q: string, s: nat, v: nat) returns (w: nat)
    requires s < |q| && !IsSeparator(q[s]) && Unfinished(q, TokenAt(q, s)) &&
             SkipSpace(q, TokenAt(q, s).nameEnd) + 1 == v <= |q|
    requires SkipSpace(q, v) < |q|
    ensures w == SkipSpace(q, v) && (q[w] == '"' || q[w] == '\'') && CharAt(q, q[w], w + 1) == |q|
  {
    w := SkipSpace(q, v);
  }

  lemma UnfinishedName(q: string, rest: string, i: nat)
    requires i <= |q| && SkipSeparators(q, i) < |q| && !IsSpace(q[|q| - 1]) && UnfinishedAt(q, i) && NoAid(q + rest, i)
    ensures !AidAt(q, i)
  {
    var s, a := SkipSeparators(q, i), q + rest;
    var v := UnfinishedHead(q, rest, s);
    SameSeparators(q, rest, i);
    TokenTurn(a, i, i, s);
    NoAidIs(a, i, i);
    FrontSlice(q, a, s, NameStop(q, s));
  }

  lemma FrontSlice(q: string, b: string, s: nat, e: nat)
    requires s <= e <= |q| <= |b| && forall j :: 0 <= j < |q| ==> b[j] == q[j]
    ensures b[s..e] == q[s..e]
  {
  }

  lemma SwallowTurn(q: string, aid: string, rest: string, b: string, i: nat) returns (next: nat)
    requires Stamped(q, aid, rest, b) && i <= |q| && SkipSeparators(q, i) < |q| && UnfinishedAt(q, i) && !AidAt(q, i)
    ensures i <= |b| && TurnAt(b, i, i) == Past(next) && i < next <= |b|
    ensures next >= |q| + 17 + |aid| || next == |q| + 16
  {
    var s := SkipSeparators(q, i);
    next := UnfinishedSwallows(q, aid, rest, b, s);
    Front(q, aid, rest, b);
    SameSeparators(q, AidText(aid) + rest, i);
    var ne := TokenAt(q, s).nameEnd;
    FrontSlice(q, b, s, ne);
    TokenTurn(b, i, i, s);
  }

  lemma {:induction false} SwallowsStamp(q: string, aid: string, rest: string, b: string, i: nat)
    requires Stamped(q, aid, rest, b) && i <= |q| && Pending(q, i) && NoAid(q + rest, i)
    ensures i <= |b| && NoAid(b, i)
    decreases |q| - i
  {
    if UnfinishedAt(q, i) {
      UnfinishedName(q, rest, i);
      var next := SwallowTurn(q, aid, rest, b, i);
      NothingBehind(q, aid, rest, b, next);
    } else {
      BlankStamp(aid, rest);
      var na := SameTurn(q, rest, |rest|, i, i);
      var nb := SameTurn(q, AidText(aid) + rest, 1, i, i);
      SwallowsStamp(q, aid, rest, b, na);
    }
  }
}

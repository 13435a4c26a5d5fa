/** Reading, stripping and stamping regular attribute text: the effect on the attributes themselves.
    The program reads attributes by positions, the grammar puts them together from parts. `Lies` says that a part stands
    at a position; from the parts of an attribute that stand in a row, and from what may follow it, the lemmas compute
    every position the program's reading comes to, up to the whole token (TokenIs). */
module AttrEdits {
  import opened AsciiText
  import opened TagSyntax
  import opened AttrText
  import opened AttrGrammar

  // ----- one attribute is read as one token

  /** What may follow an attribute in regular text: a separator or the end, and no equals sign behind
      white space, which would make a value of what follows. */
  predicate Follows(v: Value, rest: string) {
    && (rest != "" ==> IsSeparator(rest[0]))
    && (v.Bare? ==> SpaceOrEnd(rest))
    && (forall i :: 0 <= i < |rest| && rest[i] == '=' ==> exists j :: 0 <= j < i && !IsSpace(rest[j]))
  }

  lemma NameIs(a: string, i: nat, r: nat)
    requires i <= r <= |a|
    requires forall j :: i <= j < r ==> !IsSeparator(a[j]) && a[j] != '='
    requires r < |a| ==> IsSeparator(a[r]) || a[r] == '='
    ensures NameStop(a, i) == r
  {
  }

  lemma SpaceIs(a: string, i: nat, r: nat)
    requires i <= r <= |a|
    requires forall j :: i <= j < r ==> IsSpace(a[j])
    requires r < |a| ==> !IsSpace(a[r])
    ensures SkipSpace(a, i) == r
  {
  }

  lemma BareIs(a: string, i: nat, r: nat)
    requires i <= r <= |a|
    requires forall j :: i <= j < r ==> !IsSpace(a[j])
    requires r < |a| ==> IsSpace(a[r])
    ensures SpaceStop(a, i) == r
  {
  }

  lemma SeparatorsAre(a: string, i: nat, r: nat)
    requires i <= r <= |a|
    requires forall j :: i <= j < r ==> IsSeparator(a[j])
    requires r < |a| ==> !IsSeparator(a[r])
    ensures SkipSeparators(a, i) == r
  {
  }

  /** `p` lies in `a` at position `i`. */
  predicate Lies(a: string, i: nat, p: string) {
    i + |p| <= |a| && forall j :: 0 <= j < |p| ==> a[i + j] == p[j]
  }

  lemma LiesSplit(a: string, i: nat, p: string, q: string)
    requires Lies(a, i, p + q)
    ensures Lies(a, i, p) && Lies(a, i + |p|, q)
  {
    forall j | 0 <= j < |p| ensures a[i + j] == p[j] { assert (p + q)[j] == p[j]; }
    forall j | 0 <= j < |q| ensures a[i + |p| + j] == q[j] { assert (p + q)[|p| + j] == q[j]; }
  }

  /** A valueless attribute. */
  lemma TokenNoValue(a: string, i: nat, n: string, rest: string)
    requires IsNameText(n) && Lies(a, i, n) && Lies(a, i + |n|, rest) && i + |n| + |rest| == |a|
    requires Follows(NoValue, rest) && !IsSeparator(a[i])
    ensures var t := TokenAt(a, i); t.nameEnd == i + |n| && !t.hasValue
    ensures var t := TokenAt(a, i); forall j :: i + |n| <= j < t.next ==> IsSpace(a[j])
  {
    assert a[i] == n[0];
    forall j | i <= j < i + |n| ensures !IsSeparator(a[j]) && a[j] != '=' { assert a[j] == n[j - i]; }
    if rest != "" { assert a[i + |n|] == rest[0]; }
    NameIs(a, i, i + |n|);
    var eq := SkipSpace(a, i + |n|);
    forall j | 0 <= j < eq - i - |n| ensures IsSpace(rest[j]) {
      assert a[i + |n| + j] == rest[j];
    }
    assert eq < |a| ==> rest[eq - i - |n|] == a[i + |n| + (eq - i - |n|)];
  }

  /** The name and the equals sign of an attribute that has a value. */
  lemma TokenHead(a: string, i: nat, n: string, before: string, after: string)
    requires IsNameText(n) && AllSpace(before) && AllSpace(after)
    requires Lies(a, i, n) && Lies(a, i + |n|, before + "=" + after)
    requires var v := i + |n| + |before| + 1 + |after|; v < |a| && !IsSpace(a[v])
    ensures NameStop(a, i) == i + |n|
    ensures SkipSpace(a, i + |n|) == i + |n| + |before| && a[i + |n| + |before|] == '='
    ensures SkipSpace(a, i + |n| + |before| + 1) == i + |n| + |before| + 1 + |after|
  {
    var p, q := i + |n|, i + |n| + |before|;
    LiesSplit(a, p, before + "=", after);
    LiesSplit(a, p, before, "=");
    assert a[q + 0] == "="[0];
    forall j | i <= j < p ensures !IsSeparator(a[j]) && a[j] != '=' { assert a[i + (j - i)] == n[j - i]; }
    forall j | p <= j < q ensures IsSpace(a[j]) { assert a[p + (j - p)] == before[j - p]; }
    forall j | q + 1 <= j < q + 1 + |after| ensures IsSpace(a[j]) { assert a[q + 1 + (j - q - 1)] == after[j - q - 1]; }
    NameIs(a, i, p);
    SpaceIs(a, p, q);
    SpaceIs(a, q + 1, q + 1 + |after|);
  }

  /** A token put together from its parts. */
  lemma QuotedToken(a: string, i: nat, eq: nat, v: nat, q: nat)
    requires i < |a| && !IsSeparator(a[i])
    requires SkipSpace(a, NameStop(a, i)) == eq < |a| && a[eq] == '=' && SkipSpace(a, eq + 1) == v < |a|
    requires (a[v] == '"' || a[v] == '\'') && CharAt(a, a[v], v + 1) == q < |a|
    ensures TokenAt(a, i) == Token(NameStop(a, i), true, v + 1, q, q + 1)
  {
    var ne := NameStop(a, i);
    assert SkipSpace(a, ne) == eq && SkipSpace(a, eq + 1) == v;
  }

  lemma BareToken(a: string, i: nat, eq: nat, v: nat, stop: nat)
    requires i < |a| && !IsSeparator(a[i])
    requires SkipSpace(a, NameStop(a, i)) == eq < |a| && a[eq] == '=' && SkipSpace(a, eq + 1) == v < |a|
    requires a[v] != '"' && a[v] != '\'' && SpaceStop(a, v) == stop
    ensures TokenAt(a, i) == Token(NameStop(a, i), true, v, stop, stop)
  {
  }

  lemma LiesSlice(a: string, k: nat, x: string)
    requires Lies(a, k, x)
    ensures a[k..k + |x|] == x
  {
    forall j | 0 <= j < |x| ensures a[k..k + |x|][j] == x[j] { assert a[k + j] == x[j]; }
  }

  /** Where the parts of a quoted value lie. */
  lemma QuotedParts(a: string, p: nat, b: string, s: string, q: char, x: string)
    requires Lies(a, p, b + "=" + s + [q] + x + [q]) && q !in x
    ensures
      var k := p + |b| + 1 + |s|;
      && Lies(a, p, b + "=" + s) && Lies(a, k + 1, x)
      && k + 1 + |x| < |a| && a[k] == q && CharAt(a, q, k + 1) == k + 1 + |x|
  {
    LiesSplit(a, p, b + "=" + s + [q] + x, [q]);
    LiesSplit(a, p, b + "=" + s + [q], x);
    LiesSplit(a, p, b + "=" + s, [q]);
    var k := p + |b| + 1 + |s|;
    assert a[k + 0] == [q][0] && a[k + 1 + |x| + 0] == [q][0];
    forall j | k + 1 <= j < k + 1 + |x| ensures a[j] != q {
      assert a[k + 1 + (j - k - 1)] == x[j - k - 1];
    }
    CharAtIs(a, q, k + 1, k + 1 + |x|);
  }

  /** The token of an attribute whose name lies at `i`. */
  function ValueToken(i: nat, n: string, v: Value): (t: Token)
    requires !v.NoValue?
    ensures t.hasValue && t.nameEnd == i + |n| && t.valueStop == t.valueStart + |v.text|
    ensures t.next == i + |n| + |ValueText(v)|
  {
    var p := i + |n|;
    var k := p + |v.before| + 1 + |v.after|;
    if v.Quoted? then Token(p, true, k + 1, k + 1 + |v.text|, k + 2 + |v.text|)
    else Token(p, true, k, k + |v.text|, k + |v.text|)
  }

  lemma TokenQuoted(a: string, i: nat, n: string, v: Value)
    requires IsNameText(n) && v.Quoted? && RegularValue(v)
    requires Lies(a, i, n) && Lies(a, i + |n|, ValueText(v)) && !IsSeparator(a[i])
    ensures TokenAt(a, i) == ValueToken(i, n, v)
    ensures Lies(a, ValueToken(i, n, v).valueStart, v.text)
  {
    QuotedReads(a, i, n, v.before, v.after, v.quote, v.text, i + |n|, i + |n| + |v.before| + 1 + |v.after|);
  }

  lemma QuotedReads(a: string, i: nat, n: string, b: string, s: string, q: char, x: string, p: nat, k: nat)
    requires IsNameText(n) && AllSpace(b) && AllSpace(s) && (q == '"' || q == '\'') && q !in x
    requires p == i + |n| && k == p + |b| + 1 + |s|
    requires Lies(a, i, n) && Lies(a, p, b + "=" + s + [q] + x + [q]) && !IsSeparator(a[i])
    ensures TokenAt(a, i) == Token(p, true, k + 1, k + 1 + |x|, k + 2 + |x|) && Lies(a, k + 1, x)
  {
    QuotedParts(a, p, b, s, q, x);
    TokenHead(a, i, n, b, s);
    QuotedToken(a, i, p + |b|, k, k + 1 + |x|);
  }

  lemma BareEnds(a: string, k: nat, x: string, rest: string)
    requires IsBareText(x) && SpaceOrEnd(rest) && Lies(a, k, x) && Lies(a, k + |x|, rest) && k + |x| + |rest| == |a|
    ensures SpaceStop(a, k) == k + |x|
  {
    forall j | k <= j < k + |x| ensures !IsSpace(a[j]) {
      assert a[k + (j - k)] == x[j - k];
    }
    if rest != "" { assert a[k + |x| + 0] == rest[0]; }
    BareIs(a, k, k + |x|);
  }

  lemma TokenBare(a: string, i: nat, n: string, v: Value, rest: string)
    requires IsNameText(n) && v.Bare? && RegularValue(v) && SpaceOrEnd(rest)
    requires Lies(a, i, n) && Lies(a, i + |n|, ValueText(v)) && !IsSeparator(a[i])
    requires i + |n| + |ValueText(v)| + |rest| == |a| && Lies(a, i + |n| + |ValueText(v)|, rest)
    ensures TokenAt(a, i) == ValueToken(i, n, v)
    ensures Lies(a, ValueToken(i, n, v).valueStart, v.text)
  {
    var p, k := i + |n|, i + |n| + |v.before| + 1 + |v.after|;
    BareReads(a, i, n, v.before, v.after, v.text, p, k);
    BareEnds(a, k, v.text, rest);
    BareToken(a, i, p + |v.before|, k, k + |v.text|);
  }

  /** Where the parts of an unquoted value lie. */
  lemma BareReads(a: string, i: nat, n: string, b: string, s: string, x: string, p: nat, k: nat)
    requires IsNameText(n) && AllSpace(b) && AllSpace(s) && IsBareText(x) && p == i + |n| && k == p + |b| + 1 + |s|
    requires Lies(a, i, n) && Lies(a, p, b + "=" + s + x)
    ensures Lies(a, k, x) && k < |a| && a[k] == x[0] && NameStop(a, i) == p
    ensures SkipSpace(a, p) == p + |b| && a[p + |b|] == '=' && SkipSpace(a, p + |b| + 1) == k
  {
    LiesSplit(a, p, b + "=" + s, x);
    assert a[k + 0] == x[0];
    TokenHead(a, i, n, b, s);
  }

  /** The text of a value, decoded from its quotes. */
  function Content(v: Value): string {
    if v.NoValue? then "" else v.text
  }

  /** The token of the attribute `x` whose name starts at `s` in `a` and which ends at `end`. */
  predicate ReadsAs(a: string, s: nat, end: nat, x: Attr, t: Token) {
    && s <= t.nameEnd <= |a| && a[s..t.nameEnd] == x.name
    && end <= t.next <= |a|
    && (if x.value.NoValue?
        then !t.hasValue && t.nameEnd == end && (forall j :: end <= j < t.next ==> IsSpace(a[j]))
        else
          t.hasValue && t.next == end && t.valueStart <= t.valueStop <= |a| &&
          a[t.valueStart..t.valueStop] == x.value.text)
  }

  lemma ValueReads(a: string, s: nat, x: Attr)
    requires !x.value.NoValue? && Lies(a, s, x.name) && ValueToken(s, x.name, x.value).next <= |a|
    requires Lies(a, ValueToken(s, x.name, x.value).valueStart, x.value.text)
    ensures var t := ValueToken(s, x.name, x.value); ReadsAs(a, s, t.next, x, t)
  {
    LiesSlice(a, s, x.name);
    LiesSlice(a, ValueToken(s, x.name, x.value).valueStart, x.value.text);
  }

  lemma NameReads(a: string, s: nat, end: nat, x: Attr, rest: string) returns (t: Token)
    requires RegularAttr(x) && Follows(x.value, rest)
    requires Lies(a, s, x.name) && Lies(a, s + |x.name|, ValueText(x.value))
    requires end == s + |x.name| + |ValueText(x.value)| && Lies(a, end, rest) && end + |rest| == |a|
    ensures s < |a| && !IsSeparator(a[s]) && a[s] != '='
    ensures t == TokenAt(a, s) && ReadsAs(a, s, end, x, t)
  {
    assert a[s + 0] == x.name[0];
    if x.value.NoValue? {
      LiesSlice(a, s, x.name);
      TokenNoValue(a, s, x.name, rest);
      t := TokenAt(a, s);
    } else {
      t := ValueToken(s, x.name, x.value);
      if x.value.Quoted? {
        TokenQuoted(a, s, x.name, x.value);
      } else {
        TokenBare(a, s, x.name, x.value, rest);
      }
      ValueReads(a, s, x);
    }
  }

  lemma SeparatorLies(a: string, p: nat, sep: string)
    requires Lies(a, p, sep) && AllSeparators(sep) && p + |sep| < |a| && !IsSeparator(a[p + |sep|])
    ensures SkipSeparators(a, p) == p + |sep|
  {
    forall j | p <= j < p + |sep| ensures IsSeparator(a[j]) { assert a[p + (j - p)] == sep[j - p]; }
    SeparatorsAre(a, p, p + |sep|);
  }

  /** The attribute `x` at position `p` in `a`, with `rest` behind it, is read as one token. */
  lemma TokenIs(a: string, p: nat, x: Attr, rest: string) returns (s: nat, t: Token)
    requires RegularAttr(x) && Follows(x.value, rest)
    requires Lies(a, p, Text(x)) && Lies(a, p + |Text(x)|, rest) && p + |Text(x)| + |rest| == |a|
    ensures s == SkipSeparators(a, p) == p + |x.sep| < |a| && !IsSeparator(a[s]) && a[s] != '='
    ensures t == TokenAt(a, s) && ReadsAs(a, s, p + |Text(x)|, x, t)
  {
    s := p + |x.sep|;
    LiesSplit(a, p, x.sep, x.name + ValueText(x.value));
    LiesSplit(a, s, x.name, ValueText(x.value));
    t := NameReads(a, s, p + |Text(x)|, x, rest);
    SeparatorLies(a, p, x.sep);
  }
}

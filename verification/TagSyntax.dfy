/** The lexical pieces the scanner recognizes at a `<` (internal/core/stamp.go). Every function reads
    a text `t` that starts at that `<`, and answers with lengths. */
module TagSyntax {
  import opened AsciiText

  datatype Found<+T> = Absent | Found(value: T)

  predicate IsNameChar(c: char) {
    IsWordChar(c) || c == '-'
  }

  /** What may follow a tag name. */
  predicate EndsName(c: char) {
    IsSpace(c) || c == '/' || c == '>'
  }

  /** The first position of `c` from `k` on, or the length. */
  function CharAt(t: string, c: char, k: nat): (r: nat)
    requires k <= |t|
    ensures k <= r <= |t|
    ensures forall j :: k <= j < r ==> t[j] != c
    ensures r < |t| ==> t[r] == c
    decreases |t| - k
  {
    if k == |t| || t[k] == c then k else CharAt(t, c, k + 1)
  }

  /** The end of the run of name characters at `k`. */
  function NameEnd(t: string, k: nat): (r: nat)
    requires k <= |t|
    ensures k <= r <= |t|
    ensures forall j :: k <= j < r ==> IsNameChar(t[j])
    ensures r < |t| ==> !IsNameChar(t[r])
    decreases |t| - k
  {
    if k == |t| || !IsNameChar(t[k]) then k else NameEnd(t, k + 1)
  }

  /** The end of the tag name when `t` opens a tag. */
  function Probe(t: string): (r: Found<nat>)
    ensures r.Found? ==> 2 <= r.value <= |t| && t[0] == '<'
  {
    if |t| < 2 || t[0] != '<' || !IsLetter(t[1]) then Absent
    else
      var ne := NameEnd(t, 2);
      if ne < |t| && !EndsName(t[ne]) then Absent else Found(ne)
  }

  /** The name when `t` starts with an end tag. */
  function EndName(t: string): Found<string> {
    if |t| < 3 || t[0] != '<' || t[1] != '/' || !IsLetter(t[2]) then Absent
    else
      var ne := NameEnd(t, 3);
      if ne == |t| || !EndsName(t[ne]) then Absent else Found(Lower(t[2..ne]))
  }

  /** The length of the end tag for `tag` that `t` starts with; one without `>` runs to the end. */
  function EndTagLen(t: string, tag: string): (r: Found<nat>)
    ensures r.Found? ==> 2 + |tag| < r.value <= |t|
  {
    var ne := 2 + |tag|;
    if |t| <= ne || t[0] != '<' || t[1] != '/' || !EqualFold(t[2..ne], tag) || !EndsName(t[ne]) then Absent
    else
      var gt := CharAt(t, '>', ne);
      Found(if gt == |t| then |t| else gt + 1)
  }

  /** The end of a comment's text: past the first `-->` or `--!>` from `k` on, or the end. */
  function CommentTail(t: string, k: nat): (r: nat)
    requires k <= |t|
    ensures k <= r <= |t|
    decreases |t| - k
  {
    if k == |t| then k
    else if "-->" <= t[k..] then k + 3
    else if "--!>" <= t[k..] then k + 4
    else CommentTail(t, k + 1)
  }

  /** The length of the comment `t` starts with. */
  function CommentLen(t: string): (r: Found<nat>)
    ensures r.Found? ==> 4 <= r.value <= |t|
  {
    if |t| <= 3 || t[0] != '<' || t[1] != '!' || t[2] != '-' || t[3] != '-' then Absent
    else if |t| > 4 && t[4] == '>' then Found(5)
    else if |t| > 5 && t[4] == '-' && t[5] == '>' then Found(6)
    else Found(CommentTail(t, 4))
  }

  /** The first end tag for `tag` in `t` from `k` on: its start and its end. */
  function RawClose(t: string, tag: string, k: nat): (r: Found<(nat, nat)>)
    requires k <= |t|
    ensures r.Found? ==>
            k <= r.value.0 < r.value.1 <= |t| && EndTagLen(t[r.value.0..], tag) == Found(r.value.1 - r.value.0)
    ensures r.Found? ==> forall j :: k <= j < r.value.0 ==> EndTagLen(t[j..], tag) == Absent
    ensures r.Absent? ==> forall j :: k <= j < |t| ==> EndTagLen(t[j..], tag) == Absent
    decreases |t| - k
  {
    if k == |t| then Absent
    else
      match EndTagLen(t[k..], tag)
      case Found(n) => Found((k, k + n))
      case Absent => RawClose(t, tag, k + 1)
  }

  // ----- as the program computes them

  method IndexByte(s: string, c: char, k: nat) returns (r: nat)
    requires k <= |s|
    ensures k <= r <= |s|
    ensures forall j :: k <= j < r ==> s[j] != c
    ensures r < |s| ==> s[r] == c
  {
    r := k;
    while r < |s| && s[r] != c
      invariant k <= r <= |s|
      invariant forall j :: k <= j < r ==> s[j] != c
    {
      r := r + 1;
    }
  }

  /** The first occurrence of `pat` in `s` from `k` on, or -1. */
  method IndexText(s: string, pat: string, k: nat) returns (r: int)
    requires k <= |s|
    ensures r == -1 || (k <= r <= |s| && pat <= s[r..])
    ensures forall j :: k <= j < (if r == -1 then |s| else r) ==> !(pat <= s[j..])
  {
    var i := k;
    while i < |s|
      invariant k <= i <= |s|
      invariant forall j :: k <= j < i ==> !(pat <= s[j..])
    {
      if pat <= s[i..] {
        return i;
      }
      i := i + 1;
    }
    r := -1;
  }

  lemma {:induction false} TailIs(t: string, k: nat, stop: nat)
    requires k <= stop <= |t|
    requires forall j :: k <= j < stop ==> !("-->" <= t[j..]) && !("--!>" <= t[j..])
    ensures CommentTail(t, k) == CommentTail(t, stop)
    decreases stop - k
  {
    if k < stop {
      TailIs(t, k + 1, stop);
    }
  }

  /** `r` is where `pat` first occurs in `t` from `k` on, or -1. */
  predicate FirstAt(t: string, pat: string, k: nat, r: int) {
    && (r == -1 || (k <= r <= |t| && pat <= t[r..]))
    && (forall j :: k <= j < (if r == -1 then |t| else r) && j <= |t| ==> !(pat <= t[j..]))
  }

  /** The program's choice of the earlier terminator is the single scan's. */
  lemma EarlierTerminator(t: string, k: nat, dash: int, bang: int)
    requires k <= |t| && FirstAt(t, "-->", k, dash) && FirstAt(t, "--!>", k, bang)
    ensures CommentTail(t, k) ==
            if dash < 0 && bang < 0 then |t|
            else if bang < 0 || (dash >= 0 && dash <= bang) then dash + 3
            else bang + 4
  {
    if dash < 0 && bang < 0 {
      TailIs(t, k, |t|);
    } else if bang < 0 || (dash >= 0 && dash <= bang) {
      TailIs(t, k, dash);
    } else {
      TailIs(t, k, bang);
    }
  }

  lemma FirstAtSuffix(s: string, lt: nat, pat: string, k: nat, r: int)
    requires lt <= k <= |s| && pat != []
    requires r == -1 || (k <= r <= |s| && pat <= s[r..])
    requires forall j :: k <= j < (if r == -1 then |s| else r) ==> !(pat <= s[j..])
    ensures FirstAt(s[lt..], pat, k - lt, if r == -1 then -1 else r - lt)
  {
    assert forall j :: 0 <= j <= |s| - lt ==> s[lt..][j..] == s[lt + j..];
  }

  method CommentEnd(s: string, lt: nat) returns (end: int)
    requires lt < |s| && s[lt] == '<'
    ensures match CommentLen(s[lt..]) { case Absent => end == -1 case Found(n) => end == lt + n }
  {
    if lt + 3 >= |s| || s[lt + 1] != '!' || s[lt + 2] != '-' || s[lt + 3] != '-' {
      return -1;
    }
    var p := lt + 4;
    if p < |s| && s[p] == '>' {
      return p + 1;
    }
    if p + 1 < |s| && s[p] == '-' && s[p + 1] == '>' {
      return p + 2;
    }
    var dash := IndexText(s, "-->", p);
    var bang := IndexText(s, "--!>", p);
    FirstAtSuffix(s, lt, "-->", p, dash);
    FirstAtSuffix(s, lt, "--!>", p, bang);
    EarlierTerminator(s[lt..], 4, if dash == -1 then -1 else dash - lt, if bang == -1 then -1 else bang - lt);
    if dash < 0 && bang < 0 {
      return |s|;
    }
    if bang < 0 || (dash >= 0 && dash <= bang) {
      return dash + 3;
    }
    return bang + 4;
  }

  method ProbeOpenTagName(s: string, lt: nat) returns (nameEnd: nat, ok: bool)
    requires lt < |s|
    ensures ok <==> Probe(s[lt..]).Found?
    ensures ok ==> nameEnd == Probe(s[lt..]).value
  {
    ghost var t := s[lt..];
    if s[lt] != '<' || lt + 1 >= |s| || !IsLetter(s[lt + 1]) {
      return 0, false;
    }
    var i := lt + 2;
    while i < |s| && IsNameChar(s[i])
      invariant lt + 2 <= i <= |s|
      invariant NameEnd(t, 2) == NameEnd(t, i - lt)
    {
      i := i + 1;
    }
    if i < |s| && !EndsName(s[i]) {
      return 0, false;
    }
    return i - lt, true;
  }

  method EndTagBoundary(s: string, i: nat, tag: string) returns (end: nat, ok: bool)
    requires i < |s|
    ensures ok <==> EndTagLen(s[i..], tag).Found?
    ensures ok ==> end == i + EndTagLen(s[i..], tag).value
  {
    ghost var t := s[i..];
    if s[i] != '<' || i + 1 >= |s| || s[i + 1] != '/' {
      return 0, false;
    }
    var nameEnd := i + 2 + |tag|;
    if nameEnd > |s| || !EqualFold(s[i + 2..nameEnd], tag) {
      assert nameEnd <= |s| ==> t[2..2 + |tag|] == s[i + 2..nameEnd];
      return 0, false;
    }
    assert t[2..2 + |tag|] == s[i + 2..nameEnd];
    if nameEnd == |s| || !EndsName(s[nameEnd]) {
      return 0, false;
    }
    var gt := IndexByte(s, '>', nameEnd);
    CharAtIs(t, '>', 2 + |tag|, gt - i);
    if gt == |s| {
      return |s|, true;
    }
    return gt + 1, true;
  }

  lemma CharAtIs(t: string, c: char, k: nat, r: nat)
    requires k <= r <= |t|
    requires forall j :: k <= j < r ==> t[j] != c
    requires r < |t| ==> t[r] == c
    ensures CharAt(t, c, k) == r
  {
  }

  lemma NameEndIs(t: string, k: nat, r: nat)
    requires k <= r <= |t|
    requires forall j :: k <= j < r ==> IsNameChar(t[j])
    requires r < |t| ==> !IsNameChar(t[r])
    ensures NameEnd(t, k) == r
  {
  }

  method EndTagName(s: string, i: nat) returns (name: string, ok: bool)
    requires i < |s|
    ensures ok <==> EndName(s[i..]).Found?
    ensures ok ==> name == EndName(s[i..]).value
  {
    ghost var t := s[i..];
    if i + 2 >= |s| || s[i] != '<' || s[i + 1] != '/' || !IsLetter(s[i + 2]) {
      return "", false;
    }
    var nameEnd := i + 3;
    while nameEnd < |s| && IsNameChar(s[nameEnd])
      invariant i + 3 <= nameEnd <= |s|
      invariant NameEnd(t, 3) == NameEnd(t, nameEnd - i)
    {
      nameEnd := nameEnd + 1;
    }
    if nameEnd == |s| || !EndsName(s[nameEnd]) {
      return "", false;
    }
    assert t[2..nameEnd - i] == s[i + 2..nameEnd];
    return Lower(s[i + 2..nameEnd]), true;
  }

  lemma {:induction false} RawCloseFrom(t: string, tag: string, k: nat, stop: nat)
    requires k <= stop <= |t|
    requires forall j :: k <= j < stop ==> EndTagLen(t[j..], tag) == Absent
    ensures RawClose(t, tag, k) == RawClose(t, tag, stop)
    decreases stop - k
  {
    if k < stop {
      RawCloseFrom(t, tag, k + 1, stop);
    }
  }

  /** rawTextCloseBoundary: the first end tag of a raw-text element at or after `from`, (-1, -1) if none. */
  method RawTextCloseBoundary(s: string, tag: string, from: nat) returns (closeStart: int, closeEnd: int)
    requires from <= |s|
    ensures match RawClose(s[from..], tag, 0) {
              case Absent => closeStart == -1 && closeEnd == -1
              case Found(r) => closeStart == from + r.0 && closeEnd == from + r.1
            }
  {
    ghost var t := s[from..];
    var i := from;
    while i < |s|
      invariant from <= i <= |s|
      invariant forall j :: 0 <= j < i - from ==> EndTagLen(t[j..], tag) == Absent
    {
      assert t[i - from..] == s[i..];
      var end, ok := EndTagBoundary(s, i, tag);
      if ok {
        RawCloseFrom(t, tag, 0, i - from);
        return i, end;
      }
      i := i + 1;
    }
    RawCloseFrom(t, tag, 0, |t|);
    return -1, -1;
  }

  // ----- an end tag is recognized by its own name

  predicate IsTagText(tag: string) {
    forall i :: 0 <= i < |tag| ==> IsNameChar(tag[i])
  }

  lemma LowerTwice(s: string)
    ensures Lower(Lower(s)) == Lower(s)
  {
  }

  /** An end tag named `n` is an end tag for `n`. */
  lemma EndNameMatches(t: string)
    requires EndName(t).Found?
    ensures EndTagLen(t, EndName(t).value).Found?
    ensures IsTagText(EndName(t).value)
  {
    var ne := NameEnd(t, 3);
    LowerTwice(t[2..ne]);
  }
}

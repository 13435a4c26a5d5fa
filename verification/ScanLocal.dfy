/** What the scanner decides at a `<` depends only on the text up to the next open tag.
    Two texts are alike for a stretch when they are the same, or agree on it and on the `<` behind it. A comment, an end
    tag or the end of a raw-text element that starts in the stretch either ends in it, and then in both texts, or is
    known not to end before the `<` in either. So a scan that is known to find a tag at that `<` takes the same turns
    over both texts. */
module ScanLocal {
  import opened AsciiText
  import opened TagSyntax

  /** The texts are the same, or agree up to and with a `<` at position `r`. */
  predicate Alike(t: string, t': string, r: nat) {
    || (t == t' && r == |t|)
    || (r < |t| && r < |t'| && t[r] == '<' && t[..r + 1] == t'[..r + 1])
  }

  lemma AlikeChars(t: string, t': string, r: nat)
    requires Alike(t, t', r)
    ensures forall j :: 0 <= j <= r && j < |t| ==> j < |t'| && t[j] == t'[j]
  {
    if t != t' {
      forall j | 0 <= j <= r ensures t[j] == t'[j] {
        assert t[..r + 1][j] == t'[..r + 1][j];
      }
    }
  }

  lemma AlikeFrom(t: string, t': string, r: nat, k: nat)
    requires Alike(t, t', r) && k <= r
    ensures k <= |t| && k <= |t'| && Alike(t[k..], t'[k..], r - k)
  {
    if t != t' {
      assert t[k..][..r - k + 1] == t[..r + 1][k..] == t'[k..][..r - k + 1];
    }
  }

  lemma StartsSame(t: string, t': string, k: nat, p: string)
    requires k + |p| <= |t| && k + |p| <= |t'|
    requires forall j :: k <= j < k + |p| ==> t[j] == t'[j]
    ensures p <= t[k..] <==> p <= t'[k..]
  {
    assert t[k..][..|p|] == t'[k..][..|p|];
  }

  lemma {:induction false} CommentTailFar(t: string, k: nat)
    requires k <= |t|
    ensures CommentTail(t, k) == |t| || CommentTail(t, k) >= k + 3
    decreases |t| - k
  {
    if k < |t| {
      CommentTailFar(t, k + 1);
    }
  }

  lemma {:induction false} TailLike(t: string, t': string, k: nat, r: nat)
    requires k <= |t| && k <= |t'| && Alike(t, t', r) && CommentTail(t, k) <= r
    ensures CommentTail(t', k) == CommentTail(t, k)
    decreases |t| - k
  {
    if t != t' {
      AlikeChars(t, t', r);
      if k + 4 <= r {
        StartsSame(t, t', k, "-->");
        StartsSame(t, t', k, "--!>");
        if !("-->" <= t[k..]) && !("--!>" <= t[k..]) {
          TailLike(t, t', k + 1, r);
        }
      } else {
        CommentTailFar(t, k + 1);
        StartsSame(t, t', k, "-->");
      }
    }
  }

  /** The comment that starts here, when it ends before the next open tag. */
  lemma CommentLike(t: string, t': string, r: nat)
    requires Alike(t, t', r) && r >= 1 && (CommentLen(t).Found? ==> CommentLen(t).value <= r)
    ensures CommentLen(t') == CommentLen(t)
  {
    if t != t' {
      AlikeChars(t, t', r);
      if r >= 4 && t[0] == '<' && t[1] == '!' && t[2] == '-' && t[3] == '-' {
        assert CommentLen(t).Found?;
        if !(t[4] == '>') && !(|t| > 5 && t[4] == '-' && t[5] == '>') {
          TailLike(t, t', 4, r);
        }
      }
    }
  }

  lemma NameEndLike(t: string, t': string, r: nat, k: nat)
    requires Alike(t, t', r) && t != t' && k <= r
    ensures NameEnd(t, k) == NameEnd(t', k) <= r
  {
    AlikeChars(t, t', r);
    var ne := NameEnd(t, k);
    NameEndIs(t', k, ne);
  }

  lemma SliceLike(t: string, t': string, r: nat, i: nat, j: nat)
    requires Alike(t, t', r) && i <= j <= r
    ensures j <= |t| && j <= |t'| && t[i..j] == t'[i..j]
  {
    AlikeChars(t, t', r);
  }

  lemma EndNameLike(t: string, t': string, r: nat)
    requires Alike(t, t', r) && r >= 1
    ensures EndName(t') == EndName(t)
  {
    if t != t' {
      AlikeChars(t, t', r);
      if r >= 3 {
        NameEndLike(t, t', r, 3);
        SliceLike(t, t', r, 2, NameEnd(t, 3));
      }
    }
  }

  lemma ProbeLike(t: string, t': string, r: nat)
    requires Alike(t, t', r) && r >= 1
    ensures Probe(t') == Probe(t)
  {
    if t != t' {
      AlikeChars(t, t', r);
      if r >= 2 {
        NameEndLike(t, t', r, 2);
      }
    }
  }

  /** No end tag reaches over a `<`. */
  lemma NoEndTagOver(t: string, tag: string, r: nat)
    requires 1 <= r < |t| && t[r] == '<' && IsTagText(tag) && r <= 2 + |tag|
    ensures EndTagLen(t, tag).Absent?
  {
    var ne := 2 + |tag|;
    if 2 <= r < ne && ne <= |t| {
      assert Lower(t[2..ne])[r - 2] == LowerChar('<');
      assert Lower(tag)[r - 2] == LowerChar(tag[r - 2]);
    }
  }

  /** The end tag that starts here, when it ends before the next open tag. */
  lemma EndTagLike(t: string, t': string, tag: string, r: nat)
    requires Alike(t, t', r) && r >= 1 && IsTagText(tag)
    requires EndTagLen(t, tag).Found? ==> EndTagLen(t, tag).value <= r
    ensures EndTagLen(t', tag) == EndTagLen(t, tag)
  {
    if t != t' {
      AlikeChars(t, t', r);
      var ne := 2 + |tag|;
      if r <= ne {
        NoEndTagOver(t, tag, r);
        NoEndTagOver(t', tag, r);
      } else {
        SliceLike(t, t', r, 2, ne);
        if EndTagLen(t, tag).Found? {
          CharAtIs(t', '>', ne, CharAt(t, '>', ne));
        }
      }
    }
  }

  /** The end of a raw-text element, when it lies before the next open tag. */
  lemma {:induction false} RawCloseLike(t: string, t': string, tag: string, k: nat, r: nat)
    requires Alike(t, t', r) && k <= r && IsTagText(tag)
    requires RawClose(t, tag, k).Absent? ==> t == t'
    requires RawClose(t, tag, k).Found? ==> RawClose(t, tag, k).value.1 <= r
    ensures k <= |t'| && RawClose(t', tag, k) == RawClose(t, tag, k)
    decreases |t| - k
  {
    if t != t' {
      AlikeFrom(t, t', r, k);
      assert k < |t|;
      EndTagLike(t[k..], t'[k..], tag, r - k);
      if EndTagLen(t[k..], tag).Absent? {
        RawCloseLike(t, t', tag, k + 1, r);
      }
    }
  }
}

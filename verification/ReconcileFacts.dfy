/** What reconciliation guarantees: it is sound, it settles, and it never rewrites history. */
module ReconcileFacts {
  import opened Wrappers
  import opened CommentTypes
  import opened EventLog
  import opened AsciiText
  import opened Fold
  import opened History
  import opened Reconcile

  // ----- artifact lookups

  lemma Member<T>(xs: seq<T>) returns (x: T)
    requires xs != []
    ensures x in xs
  {
    x := xs[0];
  }

  lemma {:induction false} WithAidFrom(aids: seq<Artifact>, aid: string)
    ensures forall x :: x in WithAid(aids, aid) <==> x in aids && x.aid == aid
  {
    if aids != [] {
      WithAidFrom(aids[..|aids| - 1], aid);
      assert aids == aids[..|aids| - 1] + [aids[|aids| - 1]];
    }
  }

  lemma {:induction false} AliasedFrom(x: Artifact, legacy: seq<string>, aid: string)
    ensures forall y :: y in Aliased(x, legacy, aid) <==> y == x && aid in legacy
  {
    if legacy != [] {
      AliasedFrom(x, legacy[..|legacy| - 1], aid);
      assert legacy == legacy[..|legacy| - 1] + [legacy[|legacy| - 1]];
    }
  }

  lemma {:induction false} WithLegacyFrom(aids: seq<Artifact>, aid: string)
    ensures forall x :: x in WithLegacyAid(aids, aid) <==> x in aids && aid in x.legacyAids
  {
    if aids != [] {
      var last := aids[|aids| - 1];
      WithLegacyFrom(aids[..|aids| - 1], aid);
      AliasedFrom(last, last.legacyAids, aid);
      assert aids == aids[..|aids| - 1] + [last];
    }
  }

  lemma {:induction false} FittingFrom(a: Anchor, aids: seq<Artifact>, heading: bool)
    ensures forall x :: x in Fitting(a, aids, heading) <==>
                        x in aids && TagFits(a, x) && (heading ==> HeadingFits(a, x))
  {
    if aids != [] {
      FittingFrom(a, aids[..|aids| - 1], heading);
      assert aids == aids[..|aids| - 1] + [aids[|aids| - 1]];
    }
  }

  /** A re-bind target is an artifact of this version that carries the wanted tag. */
  lemma RebindAidFits(a: Anchor, aids: seq<Artifact>) returns (x: Artifact)
    requires RebindAid(a, aids) != ""
    ensures x in aids && x.aid == RebindAid(a, aids) && TagFits(a, x)
  {
    var matches, tagOnly := Fitting(a, aids, true), Fitting(a, aids, false);
    FittingFrom(a, aids, true);
    FittingFrom(a, aids, false);
    x := if |matches| == 1 then matches[0] else tagOnly[0];
    assert x in matches || x in tagOnly;
  }

  // ----- the stamper's own outputs

  predicate DistinctAids(aids: seq<Artifact>) {
    forall i, j :: 0 <= i < j < |aids| ==> aids[i].aid != aids[j].aid
  }

  predicate LowercaseTags(aids: seq<Artifact>) {
    forall x :: x in aids ==> Lower(x.tag) == x.tag
  }

  /** No artifact's aid is also a legacy alias. */
  predicate NoAidIsAlias(aids: seq<Artifact>) {
    forall x, y :: x in aids && y in aids ==> x.aid !in y.legacyAids
  }

  lemma {:induction false} OneWithAid(aids: seq<Artifact>, x: Artifact)
    requires DistinctAids(aids) && x in aids
    ensures WithAid(aids, x.aid) == [x]
  {
    var front, last := aids[..|aids| - 1], aids[|aids| - 1];
    assert aids == front + [last];
    if last == x {
      WithAidFrom(front, x.aid);
      forall y | y in front ensures y.aid != x.aid {
        var i :| 0 <= i < |front| && front[i] == y;
        assert aids[i] == y;
      }
      if WithAid(front, x.aid) != [] {
        var y := Member(WithAid(front, x.aid));
      }
    } else {
      assert x in front;
      assert DistinctAids(front);
      OneWithAid(front, x);
      var i :| 0 <= i < |front| && front[i] == x;
      assert aids[i] == x;
    }
  }

  // ----- soundness

  /** An anchor that reconciliation leaves behind: lost, or resolving to an artifact of the version. */
  predicate Resolves(a: Anchor, aids: seq<Artifact>) {
    a.kind.LostAnchor? || (a.kind.ElementAnchor? && KnownAid(a) != "" && exists x :: x in aids && x.aid == KnownAid(a))
  }

  /** `a` fits the artifact it names. */
  predicate Fits(a: Anchor, aids: seq<Artifact>) {
    a.kind.LostAnchor? ||
    (exists x :: x in aids && x.aid == KnownAid(a) && MatchesArtifact(a, x) && WithAid(aids, KnownAid(a)) == [x])
  }

  /** The anchor a reader of the version sees afterwards. */
  function After(a: Anchor, aids: seq<Artifact>, pin: Pin): Anchor {
    var b := NewAnchor(a, aids, pin);
    if b.Some? then b.value else a
  }

  lemma UniqueFits(aids: seq<Artifact>, aid: string, tag: string)
    requires Unique(aids, aid, tag)
    ensures WithAid(aids, aid)[0] in aids && WithAid(aids, aid)[0].aid == aid
  {
    WithAidFrom(aids, aid);
    assert WithAid(aids, aid)[0] in WithAid(aids, aid);
  }

  lemma ResolvedIsSound(a: Anchor, aids: seq<Artifact>)
    requires a.kind.ElementAnchor? && KnownAid(a) != ""
    requires WithAid(aids, KnownAid(a)) != [] || WithLegacyAid(aids, KnownAid(a)) != []
    requires forall x :: x in aids ==> x.aid != ""
    ensures
      var b := Resolved(a, WithAid(aids, KnownAid(a)), WithLegacyAid(aids, KnownAid(a)));
      Resolves(if b.Some? then b.value else a, aids)
  {
    var here, legacy := WithAid(aids, KnownAid(a)), WithLegacyAid(aids, KnownAid(a));
    WithAidFrom(aids, KnownAid(a));
    WithLegacyFrom(aids, KnownAid(a));
    if |here| == 1 { assert here[0] in here; }
    if |legacy| == 1 { assert legacy[0] in legacy; }
  }

  lemma NextIsSound(a: Anchor, aids: seq<Artifact>)
    ensures
      var b := NextAnchor(a, aids);
      Resolves(if b.Some? then b.value else a, aids)
  {
    if RebindAid(a, aids) != "" {
      var x := RebindAidFits(a, aids);
    }
  }

  /** Reconciling leaves every element or lost anchor lost, or naming an artifact of the version. */
  lemma AnchorIsSound(a: Anchor, aids: seq<Artifact>, pin: Pin)
    requires a.kind.ElementAnchor? || a.kind.LostAnchor?
    requires forall x :: x in aids ==> x.aid != ""
    ensures Resolves(After(a, aids, pin), aids)
  {
    var canonical := if pin.aid in pin.migrations then pin.migrations[pin.aid] else "";
    if a.kind.LostAnchor? && |pin.migrations| > 0 {
    } else if Migrated(a, aids, pin).Some? {
      UniqueFits(aids, canonical, pin.tag);
    } else if Pinned(a, aids, pin).Some? {
      UniqueFits(aids, pin.aid, pin.tag);
    } else if KnownAid(a) != "" && (WithAid(aids, KnownAid(a)) != [] || WithLegacyAid(aids, KnownAid(a)) != []) {
      ResolvedIsSound(a, aids);
    } else {
      NextIsSound(a, aids);
    }
  }

  /** With distinct aids and lowercase tags that artifact is unique and agrees with the fingerprint. */
  lemma AnchorFits(a: Anchor, aids: seq<Artifact>, pin: Pin)
    requires a.kind.ElementAnchor? || a.kind.LostAnchor?
    requires forall x :: x in aids ==> x.aid != ""
    requires DistinctAids(aids) && LowercaseTags(aids)
    ensures Fits(After(a, aids, pin), aids)
  {
    var b := After(a, aids, pin);
    AnchorIsSound(a, aids, pin);
    if b.kind.ElementAnchor? {
      var x :| x in aids && x.aid == KnownAid(b);
      OneWithAid(aids, x);
      var canonical := if pin.aid in pin.migrations then pin.migrations[pin.aid] else "";
      if Migrated(a, aids, pin).Some? {
        UniqueFits(aids, canonical, pin.tag);
      } else if Pinned(a, aids, pin).Some? {
        UniqueFits(aids, pin.aid, pin.tag);
      } else if KnownAid(a) != "" && (WithAid(aids, KnownAid(a)) != [] || WithLegacyAid(aids, KnownAid(a)) != []) {
        var legacy := WithLegacyAid(aids, KnownAid(a));
        WithLegacyFrom(aids, KnownAid(a));
        if |legacy| == 1 {
          assert legacy[0] in legacy;
          OneWithAid(aids, legacy[0]);
        }
      } else {
        var y := RebindAidFits(a, aids);
        OneWithAid(aids, y);
      }
    }
  }

  // ----- settling

  /** Nothing to change: what a further pass over the same artifacts would find. */
  predicate Settled(a: Anchor, aids: seq<Artifact>) {
    NewAnchor(a, aids, NO_PIN) == None
  }

  /** The artifact sets whose reconciliation settles. */
  predicate Regular(aids: seq<Artifact>) {
    DistinctAids(aids) && LowercaseTags(aids) && NoAidIsAlias(aids) && forall x :: x in aids ==> x.aid != ""
  }

  lemma NoAliasHere(aids: seq<Artifact>, x: Artifact)
    requires Regular(aids) && x in aids
    ensures WithLegacyAid(aids, x.aid) == []
  {
    WithLegacyFrom(aids, x.aid);
    if WithLegacyAid(aids, x.aid) != [] {
      var y := Member(WithLegacyAid(aids, x.aid));
    }
  }

  /** An element anchor naming an artifact it matches is settled. */
  lemma NamedIsSettled(a: Anchor, aids: seq<Artifact>, x: Artifact)
    requires Regular(aids) && x in aids
    requires a.kind.ElementAnchor? && KnownAid(a) == x.aid && MatchesArtifact(a, x)
    ensures Settled(a, aids)
  {
    OneWithAid(aids, x);
    NoAliasHere(aids, x);
  }

  lemma ReboundIsSettled(a: Anchor, aids: seq<Artifact>)
    requires Regular(aids) && RebindAid(a, aids) != ""
    ensures Settled(NextAnchor(a, aids).value, aids)
  {
    var x := RebindAidFits(a, aids);
    NamedIsSettled(NextAnchor(a, aids).value, aids, x);
  }

  /** One pass either settles an anchor or leaves it lost, and a lost anchor settles in one pass. */
  lemma PassSettles(a: Anchor, aids: seq<Artifact>)
    requires Regular(aids)
    ensures var b := After(a, aids, NO_PIN); Settled(b, aids) || (b.kind.LostAnchor? && !a.kind.LostAnchor?)
  {
    var b := NewAnchor(a, aids, NO_PIN);
    if b.Some? && !b.value.kind.LostAnchor? {
      var legacy := WithLegacyAid(aids, KnownAid(a));
      if KnownAid(a) != "" && (WithAid(aids, KnownAid(a)) != [] || legacy != []) {
        WithLegacyFrom(aids, KnownAid(a));
        assert legacy[0] in legacy;
        NamedIsSettled(b.value, aids, legacy[0]);
      } else {
        ReboundIsSettled(a, aids);
      }
    }
  }

  lemma SecondPassRebinds(a: Anchor, aids: seq<Artifact>)
    requires Regular(aids)
    ensures Settled(After(a, aids, NO_PIN), aids) <==>
            !(NewAnchor(a, aids, NO_PIN).Some? && After(a, aids, NO_PIN).kind.LostAnchor? && RebindAid(a, aids) != "")
  {
    PassSettles(a, aids);
    var b := After(a, aids, NO_PIN);
    if NewAnchor(a, aids, NO_PIN).Some? && b.kind.LostAnchor? {
      FittingSame(a, b, aids, true);
      FittingSame(a, b, aids, false);
    }
  }

  /** The artifact an anchor names does not have the anchor's tag, or its legacy aid names none or several that could;
      what the artifacts of the version tell before the pass. */
  predicate Mismatched(a: Anchor, aids: seq<Artifact>) {
    var here, legacy := WithAid(aids, KnownAid(a)), WithLegacyAid(aids, KnownAid(a));
    && KnownAid(a) != ""
    && if here != [] then !MatchesArtifact(a, here[0])
       else legacy != [] && (|legacy| > 1 || !MatchesArtifact(a, legacy[0]))
  }

  /** A second pass changes an anchor exactly when it names a mismatched artifact although another one could be bound:
      the first pass then marks it lost, and the second binds it. */
  lemma SecondPassIdle(a: Anchor, aids: seq<Artifact>)
    requires Regular(aids)
    ensures Settled(After(a, aids, NO_PIN), aids) <==> !(Mismatched(a, aids) && RebindAid(a, aids) != "")
  {
    SecondPassRebinds(a, aids);
    var here := WithAid(aids, KnownAid(a));
    WithAidFrom(aids, KnownAid(a));
    if here != [] {
      assert here[0] in here;
      OneWithAid(aids, here[0]);
      NoAliasHere(aids, here[0]);
    }
  }

  /** Re-binding looks at the fingerprint, the label and the heading only. */
  lemma {:induction false} FittingSame(a: Anchor, b: Anchor, aids: seq<Artifact>, heading: bool)
    requires a.fingerprint == b.fingerprint && a.elementLabel == b.elementLabel && a.fallback == b.fallback
    ensures Fitting(a, aids, heading) == Fitting(b, aids, heading)
  {
    if aids != [] {
      FittingSame(a, b, aids[..|aids| - 1], heading);
    }
  }

  lemma MismatchIsLost(a: Anchor, p: Artifact, d: Artifact)
    requires p == Artifact("a1", "p", None, []) && d == Artifact("b1", "div", None, [])
    requires a == BARE_ANCHOR.(aid := "a1", fingerprint := Some("div"))
    ensures Regular([p, d]) && NewAnchor(a, [p, d], NO_PIN) == Some(Lost(a, "fingerprint_mismatch"))
  {
    var aids := [p, d];
    assert aids[..1] == [p] && [p][..0] == [];
    assert Lower("p") == "p" && Lower("div") == "div";
    assert Regular(aids);
    OneWithAid(aids, p);
    NoAliasHere(aids, p);
  }

  lemma LostRebinds(a: Anchor, p: Artifact, d: Artifact)
    requires p == Artifact("a1", "p", None, []) && d == Artifact("b1", "div", None, [])
    requires a == BARE_ANCHOR.(aid := "a1", fingerprint := Some("div"))
    ensures Fitting(a, [p, d], true) == [d]
  {
    assert [p, d][..1] == [p] && [p][..0] == [];
    assert Lower("p") == "p" && Lower("div") == "div";
    assert Fitting(a, [p], true) == [];
  }

  /** One pass is not enough in general: a mismatched anchor is lost first and re-bound by the next pass. */
  lemma OnePassIsNotIdempotent()
    ensures exists a: Anchor, aids: seq<Artifact> :: Regular(aids) && !Settled(After(a, aids, NO_PIN), aids)
  {
    var p, d := Artifact("a1", "p", None, []), Artifact("b1", "div", None, []);
    var a := BARE_ANCHOR.(aid := "a1", fingerprint := Some("div"));
    MismatchIsLost(a, p, d);
    LostRebinds(a, p, d);
    SecondPassRebinds(a, [p, d]);
  }

  // ----- whole comments

  /** The anchor a live comment shows at `version`. */
  function LiveAnchor(c: Record, version: int): Option<Anchor> {
    match SnapshotAt(c, version)
    case None => None
    case Some(s) => if s.deleted then None else s.anchor
  }

  /** After reconciling, a reader of the version sees exactly the chosen anchor. */
  lemma ReconciledShows(c: Record, aids: seq<Artifact>, pin: Pin, version: int, at: string, nonce: string)
    requires IsFiniteVersion(version) && !HasEid(c.events, ReconciledEid(at, nonce))
    ensures
      LiveAnchor(Reconciled(c, aids, pin, version, at, nonce), version) ==
      match LiveAnchor(c, version) { case None => None case Some(a) => Some(After(a, aids, pin)) }
  {
    match Change(c, aids, pin, version)
    case None =>
    case Some(b) =>
      AppendAnchorEvent(c, Stamped(ReconcileEvent(b, version, at), nonce), version);
  }

  /** Soundness: a live comment whose anchor was element or lost at the version shows there, afterwards,
      a lost anchor or an element of that version, unique and fitting when aids and tags are regular. */
  lemma ReconcileIsSound(c: Record, aids: seq<Artifact>, pin: Pin, version: int, at: string, nonce: string)
    requires IsFiniteVersion(version) && !HasEid(c.events, ReconciledEid(at, nonce))
    requires forall x :: x in aids ==> x.aid != ""
    ensures
      var before := LiveAnchor(c, version);
      var after := LiveAnchor(Reconciled(c, aids, pin, version, at, nonce), version);
      before.Some? && (before.value.kind.ElementAnchor? || before.value.kind.LostAnchor?) ==>
        && after.Some? && Resolves(after.value, aids)
        && (DistinctAids(aids) && LowercaseTags(aids) ==> Fits(after.value, aids))
  {
    ReconciledShows(c, aids, pin, version, at, nonce);
    var before := LiveAnchor(c, version);
    if before.Some? && (before.value.kind.ElementAnchor? || before.value.kind.LostAnchor?) {
      AnchorIsSound(before.value, aids, pin);
      if DistinctAids(aids) && LowercaseTags(aids) {
        AnchorFits(before.value, aids, pin);
      }
    }
  }

  /** The comment after `k` passes over the same artifacts; pass `i` runs at time at(i) and draws nonce(i). */
  function Passes(c: Record, aids: seq<Artifact>, version: int, at: nat -> string, nonce: nat -> string,
                  k: nat): Record {
    if k == 0 then c
    else Reconciled(Passes(c, aids, version, at, nonce, k - 1), aids, NO_PIN, version, at(k - 1), nonce(k - 1))
  }

  /** The ids the passes draw are new to the log and to each other. */
  ghost predicate FreshDraws(c: Record, at: nat -> string, nonce: nat -> string) {
    && (forall i: nat :: !HasEid(c.events, ReconciledEid(at(i), nonce(i))))
    && (forall i: nat, j: nat :: i < j ==> ReconciledEid(at(i), nonce(i)) != ReconciledEid(at(j), nonce(j)))
  }

  lemma HasEidAppend(es: seq<Event>, e: Event, eid: string)
    ensures HasEid(es + [e], eid) <==> HasEid(es, eid) || e.eid == eid
  {
    var r := es + [e];
    if HasEid(es, eid) {
      var i :| 0 <= i < |es| && es[i].eid == eid;
      assert r[i].eid == eid;
    }
    assert r[|es|].eid == e.eid;
  }

  lemma {:induction false} PassesStayFresh(c: Record, aids: seq<Artifact>, version: int, at: nat -> string,
        nonce: nat -> string, k: nat, i: nat)
    requires FreshDraws(c, at, nonce) && k <= i
    ensures !HasEid(Passes(c, aids, version, at, nonce, k).events, ReconciledEid(at(i), nonce(i)))
  {
    if k > 0 {
      PassesStayFresh(c, aids, version, at, nonce, k - 1, i);
      var d := Passes(c, aids, version, at, nonce, k - 1);
      match Change(d, aids, NO_PIN, version)
      case None =>
      case Some(b) =>
        HasEidAppend(d.events, Stamped(ReconcileEvent(b, version, at(k - 1)), nonce(k - 1)),
                     ReconciledEid(at(i), nonce(i)));
    }
  }

  /** Repeated reconciliation adds at most two events, and from the third pass on it adds none. */
  lemma {:induction false} ThirdPassIsIdle(c: Record, aids: seq<Artifact>, version: int, at: nat -> string,
        nonce: nat -> string, k: nat)
    requires Regular(aids) && IsFiniteVersion(version) && FreshDraws(c, at, nonce)
    ensures k >= 2 ==> Change(Passes(c, aids, version, at, nonce, k), aids, NO_PIN, version) == None
    ensures k >= 2 ==> Passes(c, aids, version, at, nonce, k + 1) == Passes(c, aids, version, at, nonce, k)
    ensures |Passes(c, aids, version, at, nonce, k).events| <= |c.events| + 2
  {
    if k == 0 {
    } else if k <= 2 {
      var d := Passes(c, aids, version, at, nonce, k - 1);
      PassesStayFresh(c, aids, version, at, nonce, k - 1, k - 1);
      ReconciledShows(d, aids, NO_PIN, version, at(k - 1), nonce(k - 1));
      if LiveAnchor(d, version).Some? {
        PassSettles(LiveAnchor(d, version).value, aids);
      }
      if k == 2 {
        PassesStayFresh(c, aids, version, at, nonce, 0, 0);
        ReconciledShows(c, aids, NO_PIN, version, at(0), nonce(0));
        assert Passes(c, aids, version, at, nonce, 1) == d;
        assert Passes(c, aids, version, at, nonce, 0) == c;
        if LiveAnchor(c, version).Some? {
          PassSettles(LiveAnchor(c, version).value, aids);
        }
      }
    } else {
      ThirdPassIsIdle(c, aids, version, at, nonce, k - 1);
    }
  }

  // ----- history

  /** The log of a published comment: reconciled at the version, then compacted when that shortens it. */
  function Compacted(c: Record): Record {
    if |Dedup(c.events)| != |c.events| then c.(events := Dedup(c.events)) else c
  }

  /** Publishing version `version` never rewrites what readers of earlier versions see, and changes
      nothing but the anchor for the others. */
  lemma PublishKeepsHistory(c: Record, aids: seq<Artifact>, pin: Pin, version: int, at: string, nonce: string, v: int)
    requires !HasEid(c.events, ReconciledEid(at, nonce))
    ensures
      var c' := Compacted(Reconciled(c, aids, pin, version, at, nonce));
      && (ReadVersion(v) < version ==> SnapshotAt(c', v) == SnapshotAt(c, v))
      && SameSnapshotButAnchor(SnapshotAt(c, v), SnapshotAt(c', v))
  {
    var r := Reconciled(c, aids, pin, version, at, nonce);
    CompactionKeepsSnapshots(r, v);
    match Change(c, aids, pin, version)
    case None =>
    case Some(b) => AppendAnchorEvent(c, Stamped(ReconcileEvent(b, version, at), nonce), v);
  }
}

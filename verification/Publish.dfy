/** The publish merge: merge local comments, reconcile every anchor, compact every log
    (internal/core/ops.go, internal/core/reconcile.go). */
module Publish {
  import opened Wrappers
  import opened CommentTypes
  import opened EventLog
  import opened CommentStore
  import opened Reconcile
  import opened ReconcileFacts
  import opened AsciiText
  import opened Fold
  import opened History
  import FoldMachine

  // ----- the result, comment by comment

  /** The version anchor events are recorded at. */
  function RecordedVersion(v: int): int {
    if v == 0 then 1 else v
  }

  /** What publishing makes of one comment: ids stamped, anchor reconciled, log compacted. Event `j`
      draws nonce(j) when it is stamped; the reconciliation event is the one behind the log. */
  function Published(c: Record, aids: seq<Artifact>, pin: Pin, v: int, at: string, nonce: nat -> string): Record {
    var r := ReconciledAt(c, aids, pin, v, at, nonce);
    r.(events := CompactLog(r.events))
  }

  predicate HasId(list: seq<Record>, id: string) {
    exists i :: 0 <= i < |list| && list[i].id == id
  }

  /** The stored comments followed by the local ones with new, non-empty ids. */
  function Merged(list: seq<Record>, locals: seq<Record>): seq<Record> {
    if locals == [] then list
    else
      var m := Merged(list, locals[..|locals| - 1]);
      var lc := locals[|locals| - 1];
      if lc.id == "" || HasId(m, lc.id) then m else m + [lc]
  }

  lemma {:induction false} MergedKeeps(list: seq<Record>, locals: seq<Record>)
    ensures list <= Merged(list, locals)
  {
    if locals != [] {
      MergedKeeps(list, locals[..|locals| - 1]);
    }
  }

  /** Merging never introduces a second comment with an id, and loses no local comment that has one. */
  lemma {:induction false} MergedIds(list: seq<Record>, locals: seq<Record>)
    ensures forall i, j :: |list| <= i < |Merged(list, locals)| && 0 <= j < i ==>
              Merged(list, locals)[i].id != Merged(list, locals)[j].id
    ensures forall k :: 0 <= k < |locals| && locals[k].id != "" ==> HasId(Merged(list, locals), locals[k].id)
  {
    if locals != [] {
      var front, lc := locals[..|locals| - 1], locals[|locals| - 1];
      MergedIds(list, front);
      var m, r := Merged(list, front), Merged(list, locals);
      forall k | 0 <= k < |locals| && locals[k].id != "" ensures HasId(r, locals[k].id) {
        if k < |front| {
          assert HasId(m, front[k].id);
          var i :| 0 <= i < |m| && m[i].id == front[k].id;
          assert r[i].id == locals[k].id;
        } else if !HasId(m, lc.id) {
          assert r[|m|].id == lc.id;
        }
      }
    }
  }

  /** Publishing version `v` leaves every stored comment's earlier snapshots alone and changes nothing but
      the anchor in the others. */
  lemma PublishMergeKeepsHistory(
      list: seq<Record>, locals: seq<Record>, aids: seq<Artifact>, pin: Pin, v: int, at: string,
      nonce: nat -> string, i: nat, read: int)
    requires i < |list| && AllStamped(list[i].events)
    requires !HasEid(list[i].events, ReconciledEid(at, nonce(|list[i].events|)))
    ensures i < |Merged(list, locals)|
    ensures
      var c' := Published(Merged(list, locals)[i], aids, pin, v, at, nonce);
      && (ReadVersion(read) < RecordedVersion(v) ==> SnapshotAt(c', read) == SnapshotAt(list[i], read))
      && SameSnapshotButAnchor(SnapshotAt(list[i], read), SnapshotAt(c', read))
  {
    MergedKeeps(list, locals);
    var c := list[i];
    assert Merged(list, locals)[i] == c;
    BackfillStamps(c.events, nonce);
    assert c.(events := c.events) == c;
    var r := Reconciled(c, aids, pin, RecordedVersion(v), at, nonce(|c.events|));
    assert Published(c, aids, pin, v, at, nonce) == Compacted(r) by {
      if |Dedup(r.events)| == |r.events| { assert r.(events := r.events) == r; }
    }
    PublishKeepsHistory(c, aids, pin, RecordedVersion(v), at, nonce(|c.events|), read);
  }

  // ----- as the program runs it

  method FindRebindAid(a: Anchor, aids: seq<Artifact>) returns (aid: string)
    ensures aid == RebindAid(a, aids)
  {
    var wantTag := "";
    if a.fingerprint.Some? && a.fingerprint.value != "" {
      wantTag := a.fingerprint.value;
    } else if a.elementLabel != "" {
      wantTag := Lower(a.elementLabel);
    }
    var wantHead := "";
    if a.fallback.Some? && a.fallback.value.nearestHeading.Some? {
      wantHead := a.fallback.value.nearestHeading.value;
    }
    var matches: seq<Artifact> := [];
    for i := 0 to |aids|
      invariant matches == Fitting(a, aids[..i], true)
    {
      assert aids[..i + 1][..i] == aids[..i];
      var x := aids[i];
      var tagOK := wantTag == "" || x.tag == wantTag;
      var headOK := wantHead == "" || (x.heading.Some? && EqualFold(x.heading.value, wantHead));
      if tagOK && headOK {
        matches := matches + [x];
      }
    }
    assert aids[..|aids|] == aids;
    if |matches| == 1 {
      return matches[0].aid;
    }
    if |matches| == 0 {
      var tagOnly: seq<Artifact> := [];
      for i := 0 to |aids|
        invariant tagOnly == Fitting(a, aids[..i], false)
      {
        assert aids[..i + 1][..i] == aids[..i];
        var x := aids[i];
        if wantTag == "" || x.tag == wantTag {
          tagOnly := tagOnly + [x];
        }
      }
      if |tagOnly| == 1 {
        return tagOnly[0].aid;
      }
    }
    return "";
  }

  /** The two identity maps of one version. */
  ghost predicate Indexes(byAid: map<string, seq<Artifact>>, byLegacy: map<string, seq<Artifact>>,
                          aids: seq<Artifact>) {
    && (forall k :: WithAid(aids, k) == At(byAid, k))
    && (forall k :: WithLegacyAid(aids, k) == At(byLegacy, k))
  }

  function At(m: map<string, seq<Artifact>>, k: string): seq<Artifact> {
    if k in m then m[k] else []
  }

  lemma AliasedSnoc(x: Artifact, legacy: seq<string>, j: nat, k: string)
    requires j < |legacy|
    ensures Aliased(x, legacy[..j + 1], k) == Aliased(x, legacy[..j], k) + if legacy[j] == k then [x] else []
  {
    assert legacy[..j + 1][..j] == legacy[..j];
  }

  lemma LegacyStep(byLegacy: map<string, seq<Artifact>>, a: Artifact, j: nat, r: map<string, seq<Artifact>>)
    requires j < |a.legacyAids| && forall k :: At(r, k) == At(byLegacy, k) + Aliased(a, a.legacyAids[..j], k)
    ensures
      var s := r[a.legacyAids[j] := At(r, a.legacyAids[j]) + [a]];
      forall k :: At(s, k) == At(byLegacy, k) + Aliased(a, a.legacyAids[..j + 1], k)
  {
    var s := r[a.legacyAids[j] := At(r, a.legacyAids[j]) + [a]];
    forall k ensures At(s, k) == At(byLegacy, k) + Aliased(a, a.legacyAids[..j + 1], k) {
      AliasedSnoc(a, a.legacyAids, j, k);
    }
  }

  /** The artifact is entered under each of its legacy ids. */
  method IndexLegacy(byLegacy: map<string, seq<Artifact>>, a: Artifact) returns (r: map<string, seq<Artifact>>)
    ensures forall k :: At(r, k) == At(byLegacy, k) + Aliased(a, a.legacyAids, k)
  {
    r := byLegacy;
    var legacy := a.legacyAids;
    for j := 0 to |legacy|
      invariant forall k :: At(r, k) == At(byLegacy, k) + Aliased(a, legacy[..j], k)
    {
      LegacyStep(byLegacy, a, j, r);
      r := r[legacy[j] := At(r, legacy[j]) + [a]];
    }
    assert legacy[..|legacy|] == legacy;
  }

  lemma IndexesSnoc(byAid: map<string, seq<Artifact>>, byLegacy: map<string, seq<Artifact>>,
                    byAid': map<string, seq<Artifact>>, byLegacy': map<string, seq<Artifact>>, aids: seq<Artifact>,
                      i: nat)
    requires i < |aids| && Indexes(byAid, byLegacy, aids[..i])
    requires byAid' == byAid[aids[i].aid := At(byAid, aids[i].aid) + [aids[i]]]
    requires forall k :: At(byLegacy', k) == At(byLegacy, k) + Aliased(aids[i], aids[i].legacyAids, k)
    ensures Indexes(byAid', byLegacy', aids[..i + 1])
  {
    var now := aids[..i + 1];
    assert now[..i] == aids[..i] && now[i] == aids[i];
    forall k ensures WithAid(now, k) == At(byAid', k) && WithLegacyAid(now, k) == At(byLegacy', k) {
      assert WithAid(aids[..i], k) == At(byAid, k) && WithLegacyAid(aids[..i], k) == At(byLegacy, k);
    }
  }

  method IndexArtifacts(aids: seq<Artifact>)
    returns (byAid: map<string, seq<Artifact>>, byLegacy: map<string, seq<Artifact>>)
    ensures Indexes(byAid, byLegacy, aids)
  {
    byAid, byLegacy := map[], map[];
    for i := 0 to |aids|
      invariant Indexes(byAid, byLegacy, aids[..i])
    {
      var a := aids[i];
      var nextAid := byAid[a.aid := At(byAid, a.aid) + [a]];
      var nextLegacy := IndexLegacy(byLegacy, a);
      IndexesSnoc(byAid, byLegacy, nextAid, nextLegacy, aids, i);
      byAid, byLegacy := nextAid, nextLegacy;
    }
    assert aids[..|aids|] == aids;
  }

  /** The anchor to record, decided from the identity maps. */
  method ChooseAnchor(
      a: Anchor, aids: seq<Artifact>, byAid: map<string, seq<Artifact>>, byLegacy: map<string, seq<Artifact>>, pin: Pin)
    returns (chosen: Option<Anchor>)
    requires Indexes(byAid, byLegacy, aids)
    ensures chosen == NewAnchor(a, aids, pin)
  {
    if !a.kind.ElementAnchor? && !a.kind.LostAnchor? {
      return None;
    }
    if a.kind.LostAnchor? && |pin.migrations| > 0 {
      return None;
    }
    chosen := Migrated(a, aids, pin);
    if chosen.Some? {
      return;
    }
    chosen := Pinned(a, aids, pin);
    if chosen.Some? {
      return;
    }
    var aid := KnownAid(a);
    if aid != "" {
      var artifacts, legacyMatches := At(byAid, aid), At(byLegacy, aid);
      assert artifacts == WithAid(aids, aid) && legacyMatches == WithLegacyAid(aids, aid);
      if |artifacts| > 0 && |legacyMatches| > 0 {
        return LostUnlessSame(a, "ambiguous_aid");
      }
      if |artifacts| == 1 && MatchesArtifact(a, artifacts[0]) {
        return None;
      }
      if |artifacts| > 0 {
        return LostUnlessSame(a, if |artifacts| > 1 then "ambiguous_aid" else "fingerprint_mismatch");
      }
      if |legacyMatches| == 1 && MatchesArtifact(a, legacyMatches[0]) {
        return Some(Canonical(a, legacyMatches[0]));
      }
      if |legacyMatches| > 0 {
        return LostUnlessSame(a, if |legacyMatches| > 1 then "ambiguous_aid" else "fingerprint_mismatch");
      }
    }
    var newAid := FindRebindAid(a, aids);
    chosen := Rebound(a, newAid);
  }

  method ReconcileComment(
      c: Comment, aids: seq<Artifact>, byAid: map<string, seq<Artifact>>, byLegacy: map<string, seq<Artifact>>,
      pin: Pin, version: int, at: string, nonce: nat -> string)
    requires Indexes(byAid, byLegacy, aids)
    modifies c`events
    ensures c.Value() == Reconciled(Filled(old(c.Value()), nonce), aids, pin, version, at, nonce(|old(c.events)|))
  {
    var snap := FoldMachine.ReadSnapshot(c, version, nonce);
    if snap.None? || snap.value.deleted || snap.value.anchor.None? {
      return;
    }
    var chosen := ChooseAnchor(snap.value.anchor.value, aids, byAid, byLegacy, pin);
    if chosen.Some? {
      c.AppendEvent(ReconcileEvent(chosen.value, version, at), nonce(|c.events|));
    }
  }

  // ----- the whole list

  predicate Distinct(cs: seq<Comment>) {
    forall i, j :: 0 <= i < j < |cs| ==> cs[i] != cs[j]
  }

  function Values(cs: seq<Comment>): seq<Record>
    reads set c | c in cs
  {
    seq(|cs|, i requires 0 <= i < |cs| reads set c | c in cs => cs[i].Value())
  }

  /** The nonces the operation draws: mint(i)(j) for the j-th event of the i-th comment. */
  type Mint = nat -> nat -> string

  function PublishedAll(m: seq<Record>, aids: seq<Artifact>, pin: Pin, v: int, at: string, mint: Mint): seq<Record> {
    seq(|m|, i requires 0 <= i < |m| => Published(m[i], aids, pin, v, at, mint(i)))
  }

  method EnsureMigrated(cs: seq<Comment>, mint: Mint)
    requires Distinct(cs)
    modifies set c | c in cs
    ensures forall i :: 0 <= i < |cs| ==> cs[i].events == Backfilled(old(cs[i].events), mint(i))
  {
    for i := 0 to |cs|
      invariant forall k :: 0 <= k < i ==> cs[k].events == Backfilled(old(cs[k].events), mint(k))
      invariant forall k :: i <= k < |cs| ==> cs[k].events == old(cs[k].events)
    {
      var changed := cs[i].BackfillEIDs(mint(i));
    }
  }

  /** The comment with its ids filled in, reconciled with the nonce behind its log. */
  function ReconciledOne(c: Record, aids: seq<Artifact>, pin: Pin, version: int, at: string,
                         nonce: nat -> string): Record {
    Reconciled(Filled(c, nonce), aids, pin, version, at, nonce(|c.events|))
  }

  /** Every comment reconciled; comment `i` draws the nonce behind its log. */
  method ReconcileEach(cs: seq<Comment>, aids: seq<Artifact>, pin: Pin, version: int, at: string, mint: Mint)
    requires Distinct(cs)
    modifies set c | c in cs
    ensures forall i :: 0 <= i < |cs| ==>
              cs[i].Value() == ReconciledOne(old(cs[i].Value()), aids, pin, version, at, mint(i))
  {
    var byAid, byLegacy := IndexArtifacts(aids);
    ghost var was := Values(cs);
    for i := 0 to |cs|
      invariant EachIs(cs, i, was, aids, pin, version, at, mint)
    {
      var c := cs[i];
      ReconcileComment(c, aids, byAid, byLegacy, pin, version, at, mint(i));
      assert forall k :: 0 <= k < |cs| && k != i ==> cs[k] != c;
    }
  }

  /** The first `i` comments are reconciled, the others as they were. */
  ghost predicate EachIs(
      cs: seq<Comment>, i: nat, was: seq<Record>, aids: seq<Artifact>, pin: Pin, version: int, at: string, mint: Mint)
    reads set c | c in cs
  {
    && |was| == |cs|
    && (forall k :: 0 <= k < i && k < |cs| ==>
          cs[k].Value() == ReconciledOne(was[k], aids, pin, version, at, mint(k)))
    && (forall k :: i <= k < |cs| ==> cs[k].Value() == was[k])
  }

  /** What reconciling at version `v` makes of one comment. */
  function ReconciledAt(c: Record, aids: seq<Artifact>, pin: Pin, v: int, at: string, nonce: nat -> string): Record {
    ReconciledOne(c, aids, pin, RecordedVersion(v), at, nonce)
  }

  method ReconcileAnchors(cs: seq<Comment>, aids: seq<Artifact>, v: int, pin: Pin, at: string, mint: Mint)
    requires Distinct(cs)
    modifies set c | c in cs
    ensures forall i :: 0 <= i < |cs| ==>
              cs[i].Value() == ReconciledAt(old(cs[i].Value()), aids, pin, v, at, mint(i))
  {
    EnsureMigrated(cs, mint);
    forall i | 0 <= i < |cs|
      ensures cs[i].Value() == Filled(old(cs[i].Value()), mint(i)) == Filled(cs[i].Value(), mint(i))
    {
      FilledStays(old(cs[i].Value()), mint(i));
      FilledStays(cs[i].Value(), mint(i));
    }
    ReconcileEach(cs, aids, pin, if v == 0 then 1 else v, at, mint);
  }

  lemma ReconciledStaysStamped(c: Record, aids: seq<Artifact>, pin: Pin, version: int, at: string, nonce: string)
    requires AllStamped(c.events)
    ensures AllStamped(Reconciled(c, aids, pin, version, at, nonce).events)
  {
    match Change(c, aids, pin, version)
    case None =>
    case Some(b) => EventEIDNonEmpty(ReconcileEvent(b, version, at), nonce);
  }

  method CompactComments(cs: seq<Comment>, mint: Mint) returns (changed: bool)
    requires Distinct(cs)
    requires forall c :: c in cs ==> AllStamped(c.events)
    modifies set c | c in cs
    ensures forall i :: 0 <= i < |cs| ==>
              cs[i].Value() == old(cs[i].Value()).(events := CompactLog(old(cs[i].events)))
  {
    changed := false;
    for i := 0 to |cs|
      invariant forall k :: 0 <= k < i ==> cs[k].events == CompactLog(old(cs[k].events))
      invariant forall k :: i <= k < |cs| ==> cs[k].events == old(cs[k].events)
    {
      BackfillStamps(cs[i].events, mint(i));
      var shorter := cs[i].Compact(mint(i));
      changed := changed || shorter;
    }
  }

  /** The ids in use. */
  method IdsOf(list: seq<Comment>) returns (have: set<string>)
    ensures Knows(have, Values(list))
  {
    have := {};
    ghost var vals := Values(list);
    for i := 0 to |list|
      invariant Knows(have, vals[..i])
    {
      assert vals[..i + 1] == vals[..i] + [vals[i]];
      HasIdAppend(vals[..i], vals[i]);
      if list[i].id != "" {
        have := have + {list[i].id};
      }
    }
    assert vals[..|list|] == vals;
  }

  lemma HasIdAppend(rs: seq<Record>, r: Record)
    ensures forall id :: HasId(rs + [r], id) <==> HasId(rs, id) || r.id == id
  {
    assert (rs + [r])[..|rs|] == rs && (rs + [r])[..|rs| + 1] == rs + [r];
    HasIdSnoc(rs + [r], |rs|);
  }

  /** Append the local comments whose ids are new. */
  method MergeLocals(list: seq<Comment>, locals: seq<Record>) returns (out: seq<Comment>, merged: nat)
    requires Distinct(list)
    ensures list <= out && Distinct(out) && fresh(out[|list|..])
    ensures Values(out) == Merged(old(Values(list)), locals)
    ensures merged == |out| - |list|
  {
    out, merged := list, 0;
    var have := IdsOf(list);
    ghost var vals := Values(list);
    for i := 0 to |locals|
      invariant list <= out && Distinct(out) && fresh(out[|list|..])
      invariant merged == |out| - |list|
      invariant vals == Values(out) == Merged(old(Values(list)), locals[..i])
      invariant Knows(have, vals)
    {
      assert locals[..i + 1][..i] == locals[..i];
      var lc := locals[i];
      KnowsIds(have, vals, lc.id);
      if lc.id != "" && lc.id !in have {
        var c := new Comment(lc);
        HaveGrows(have, vals, lc);
        assert (out + [c])[|list|..] == out[|list|..] + [c];
        out, have, merged := out + [c], have + {lc.id}, merged + 1;
        vals := vals + [lc];
        assert Values(out) == vals;
      }
    }
    assert locals[..|locals|] == locals;
  }

  /** The ids in use among `vals`. */
  predicate Knows(have: set<string>, vals: seq<Record>) {
    && (forall id :: id in have ==> id != "" && HasId(vals, id))
    && (forall i :: 0 <= i < |vals| ==> vals[i].id == "" || vals[i].id in have)
  }

  lemma KnowsIds(have: set<string>, vals: seq<Record>, id: string)
    requires Knows(have, vals)
    ensures id in have <==> id != "" && HasId(vals, id)
  {
  }

  lemma HaveGrows(have: set<string>, vals: seq<Record>, r: Record)
    requires r.id != "" && Knows(have, vals)
    ensures Knows(have + {r.id}, vals + [r])
  {
    HasIdAppend(vals, r);
  }

  lemma HasIdSnoc(rs: seq<Record>, k: nat)
    requires k < |rs|
    ensures forall id :: HasId(rs[..k + 1], id) <==> HasId(rs[..k], id) || rs[k].id == id
  {
    var a, b := rs[..k], rs[..k + 1];
    forall id ensures HasId(b, id) <==> HasId(a, id) || rs[k].id == id {
      if HasId(a, id) {
        var i :| 0 <= i < |a| && a[i].id == id;
        assert b[i].id == id;
      }
      if rs[k].id == id { assert b[k].id == id; }
      if HasId(b, id) && rs[k].id != id {
        var i :| 0 <= i < |b| && b[i].id == id;
        assert a[i].id == id;
      }
    }
  }

  /** publish_merge: every comment of the merged list is published, and no other state changes. */
  method PublishMerge(
      list: seq<Comment>, locals: seq<Record>, aids: seq<Artifact>, v: int, pin: Pin, at: string, mint: Mint)
    returns (out: seq<Comment>, merged: nat)
    requires Distinct(list)
    modifies set c | c in list
    ensures list <= out && Distinct(out) && fresh(out[|list|..])
    ensures Values(out) == PublishedAll(Merged(old(Values(list)), locals), aids, pin, v, at, mint)
    ensures merged == |out| - |list|
  {
    out, merged := MergeLocals(list, locals);
    ghost var m := Values(out);
    assert forall k :: |list| <= k < |out| ==> out[k] == out[|list|..][k - |list|];
    if |out| > 0 {
      ReconcileAnchors(out, aids, v, pin, at, mint);
      forall c | c in out ensures AllStamped(c.events) {
        var i :| 0 <= i < |out| && out[i] == c;
        BackfillStamps(m[i].events, mint(i));
        ReconciledStaysStamped(m[i].(events := Backfilled(m[i].events, mint(i))), aids, pin, RecordedVersion(v), at,
                               mint(i)(|m[i].events|));
      }
      var changed := CompactComments(out, mint);
    }
  }
}

/** What readers see across publishes: appended anchor events never rewrite an older fold, and
    the fold does not depend on the physical order in which different versions were written. */
module History {
  import opened Wrappers
  import opened CommentTypes
  import opened EventLog
  import opened Fold
  import opened StableSort

  lemma {:induction false} UptoConcat(a: seq<Event>, b: seq<Event>, at: int)
    ensures Upto(a + b, at) == Upto(a, at) + Upto(b, at)
  {
    if b == [] {
      assert a + b == a;
    } else {
      assert (a + b)[..|a + b| - 1] == a + b[..|b| - 1];
      UptoConcat(a, b[..|b| - 1], at);
    }
  }

  lemma {:induction false} UptoNone(es: seq<Event>, at: int)
    requires forall e :: e in es ==> e.atVersion > at
    ensures Upto(es, at) == []
  {
    if es != [] {
      assert es[|es| - 1] in es;
      UptoNone(es[..|es| - 1], at);
    }
  }

  lemma {:induction false} RunConcat(v: View, a: seq<Event>, b: seq<Event>)
    ensures Run(v, a + b) == Run(Run(v, a), b)
  {
    if b == [] {
      assert a + b == a;
    } else {
      assert (a + b)[..|a + b| - 1] == a + b[..|b| - 1];
      RunConcat(v, a, b[..|b| - 1]);
    }
  }

  /** An anchor event that leaves the status alone, as reconciliation writes it. */
  predicate AnchorOnly(e: Event) {
    e.kind.AnchorChanged? && e.resetStatus != Some(true)
  }

  /** Two fold states that agree on everything but the anchor. */
  predicate SameButAnchor(v: View, w: View) {
    w == v.(snap := v.snap.(anchor := w.snap.anchor))
  }

  lemma StepKeepsFrame(v: View, w: View, e: Event)
    requires SameButAnchor(v, w)
    ensures SameButAnchor(ApplyEvent(v, e), ApplyEvent(w, e))
  {
    match e.kind
    case Created | TextEdited | AnchorChanged => assert SameButAnchor(ApplyContent(v, e), ApplyContent(w, e));
    case MarkedApplied | MarkedOpen | Deleted => assert SameButAnchor(ApplyStatus(v, e), ApplyStatus(w, e));
    case ReactionAdded | ReactionRemoved => assert SameButAnchor(ApplyParentReaction(v, e), ApplyParentReaction(w, e));
    case _ => assert SameButAnchor(ApplyReply(v, e), ApplyReply(w, e));
  }

  lemma {:induction false} RunKeepsFrame(v: View, w: View, es: seq<Event>)
    requires SameButAnchor(v, w)
    ensures SameButAnchor(Run(v, es), Run(w, es))
  {
    if es != [] {
      RunKeepsFrame(v, w, es[..|es| - 1]);
      StepKeepsFrame(Run(v, es[..|es| - 1]), Run(w, es[..|es| - 1]), es[|es| - 1]);
    }
  }

  /** A fresh event enters the replay order behind everything of its version and ahead of later versions. */
  lemma OrderedAppend(es: seq<Event>, e: Event) returns (a: seq<Event>, b: seq<Event>)
    requires e.eid != "" && !HasEid(es, e.eid)
    ensures Ordered(es) == a + b && Ordered(es + [e]) == a + [e] + b
    ensures forall x :: x in b ==> x.atVersion > e.atVersion
  {
    DedupAppendFresh(es, e);
    var d := Dedup(es);
    assert (d + [e])[..|d + [e]| - 1] == d;
    var s := Ordered(es);
    var p := Slot(s, VersionOf, e);
    a, b := s[..p], s[p..];
    forall x | x in b ensures x.atVersion > e.atVersion {
      var i :| 0 <= i < |b| && b[i] == x;
      assert VersionOf(s[p + i]) > VersionOf(e);
    }
  }

  /** The snapshots agree on everything but the anchor. */
  predicate SameSnapshotButAnchor(s: Option<Snapshot>, t: Option<Snapshot>) {
    match (s, t)
    case (None, None) => true
    case (Some(x), Some(y)) => y == x.(anchor := y.anchor)
    case _ => false
  }

  /** The replays with and without an appended event, split where it lands. */
  lemma ReplayAppend(c: Record, e: Event, at: int) returns (ua: seq<Event>, ub: seq<Event>)
    requires e.eid != "" && !HasEid(c.events, e.eid)
    ensures Replay(c, at) == Run(Run(Start(c), ua), ub)
    ensures Replay(c.(events := c.events + [e]), at) ==
            Run(if Visible(e, at) then ApplyEvent(Run(Start(c), ua), e) else Run(Start(c), ua), ub)
    ensures at <= e.atVersion ==> ub == []
  {
    var a, b := OrderedAppend(c.events, e);
    var s0 := Start(c);
    assert Start(c.(events := c.events + [e])) == s0;
    UptoConcat(a, b, at);
    UptoConcat(a + [e], b, at);
    UptoConcat(a, [e], at);
    assert [e][..0] == [];
    ua, ub := Upto(a, at), Upto(b, at);
    RunConcat(s0, ua, ub);
    if at <= e.atVersion {
      UptoNone(b, at);
    }
    if Visible(e, at) {
      assert Upto([e], at) == [e];
      RunConcat(s0, ua + [e], ub);
      assert (ua + [e])[..|ua|] == ua;
    } else {
      assert Upto([e], at) == [];
      assert ua + [] == ua;
    }
  }

  /** Appending an anchor event at version `n` changes nothing a reader below `n` sees, and nothing but
      the anchor for the others; a reader of `n` itself sees exactly the new anchor. */
  lemma AppendAnchorEvent(c: Record, e: Event, v: int)
    requires c.events != [] && AnchorOnly(e) && e.eid != "" && !HasEid(c.events, e.eid)
    ensures
      var c' := c.(events := c.events + [e]);
      && (ReadVersion(v) < e.atVersion ==> SnapshotAt(c', v) == SnapshotAt(c, v))
      && SameSnapshotButAnchor(SnapshotAt(c, v), SnapshotAt(c', v))
      && (v == e.atVersion && IsFiniteVersion(v) && SnapshotAt(c', v).Some? ==>
            SnapshotAt(c', v).value.anchor == e.anchor)
  {
    var at := ReadVersion(v);
    var c' := c.(events := c.events + [e]);
    var ua, ub := ReplayAppend(c, e, at);
    var v0 := Run(Start(c), ua);
    if Visible(e, at) {
      RunKeepsFrame(v0, ApplyEvent(v0, e), ub);
      FinalizeFrame(Replay(c, at), Replay(c', at));
      if v == e.atVersion {
        assert Replay(c', at) == ApplyEvent(v0, e);
      }
    }
  }

  lemma FinalizeFrame(v: View, w: View)
    requires SameButAnchor(v, w)
    ensures Finalize(w) == Finalize(v).(anchor := w.snap.anchor)
  {
  }

  // ----- physical order

  /** No id occurs at two different versions. */
  predicate OneVersionPerEid(es: seq<Event>) {
    forall i, j :: 0 <= i < |es| && 0 <= j < |es| && es[i].eid != "" && es[i].eid == es[j].eid ==>
      es[i].atVersion == es[j].atVersion
  }

  lemma {:induction false} WithKeyFrom(es: seq<Event>, v: int)
    ensures forall x :: x in WithKey(es, VersionOf, v) <==> x in es && x.atVersion == v
  {
    if es != [] {
      var front, e := es[..|es| - 1], es[|es| - 1];
      WithKeyFrom(front, v);
      assert es == front + [e];
    }
  }

  lemma {:induction false} WithKeyUpdate(d: seq<Event>, p: nat, e: Event, v: int)
    requires p < |d| && d[p].atVersion == e.atVersion != v
    ensures WithKey(d[p := e], VersionOf, v) == WithKey(d, VersionOf, v)
  {
    var a, b := d[..p], d[p + 1..];
    assert d == a + [d[p]] + b && d[p := e] == a + [e] + b;
    WithKeySplit(a, d[p], b, v);
    WithKeySplit(a, e, b, v);
  }

  lemma WithKeySplit(a: seq<Event>, x: Event, b: seq<Event>, v: int)
    ensures WithKey(a + [x] + b, VersionOf, v) ==
            WithKey(a, VersionOf, v) + (if x.atVersion == v then [x] else []) + WithKey(b, VersionOf, v)
  {
    WithKeyConcat(a + [x], b, VersionOf, v);
    WithKeyConcat(a, [x], VersionOf, v);
    assert [x][..0] == [];
    assert WithKey([x][..0], VersionOf, v) == [];
  }

  lemma FindEidAbsent(es: seq<Event>, eid: string)
    requires forall x :: x in es ==> x.eid != eid
    ensures FindEid(es, eid) == |es|
  {
    forall i | 0 <= i < |es| ensures es[i].eid != eid {
      assert es[i] in es;
    }
  }

  lemma FindEidAt(a: seq<Event>, x: Event, b: seq<Event>)
    requires FindEid(a, x.eid) == |a|
    ensures FindEid(a + [x] + b, x.eid) == |a|
  {
    var r := a + [x] + b;
    assert r[|a|] == x;
    assert forall i :: 0 <= i < |a| ==> r[i] == a[i];
  }

  lemma PutAt(a: seq<Event>, x: Event, b: seq<Event>, e: Event)
    requires e.eid != "" && x.eid == e.eid && FindEid(a, e.eid) == |a|
    ensures Put(a + [x] + b, e) == a + [e] + b
  {
    FindEidAt(a, x, b);
    assert (a + [x] + b)[|a| := e] == a + [e] + b;
  }

  lemma PutNewWithKey(d: seq<Event>, e: Event)
    requires e.eid == "" || FindEid(d, e.eid) == |d|
    ensures WithKey(Put(d, e), VersionOf, e.atVersion) == Put(WithKey(d, VersionOf, e.atVersion), e)
  {
    var w := WithKey(d, VersionOf, e.atVersion);
    WithKeySplit(d, e, [], e.atVersion);
    assert d + [e] + [] == d + [e] && w + [e] + [] == w + [e];
    WithKeyFrom(d, e.atVersion);
    if e.eid != "" {
      FindEidAbsent(w, e.eid);
    }
  }

  lemma SplitAt(d: seq<Event>, p: nat, e: Event)
    requires p < |d|
    ensures d == d[..p] + [d[p]] + d[p + 1..]
    ensures d[p := e] == d[..p] + [e] + d[p + 1..]
  {
  }

  lemma BeforeFind(d: seq<Event>, eid: string, v: int)
    ensures FindEid(WithKey(d[..FindEid(d, eid)], VersionOf, v), eid) == |WithKey(d[..FindEid(d, eid)], VersionOf, v)|
  {
    var a := d[..FindEid(d, eid)];
    WithKeyFrom(a, v);
    forall x | x in WithKey(a, VersionOf, v) ensures x.eid != eid {
      var i :| 0 <= i < |a| && a[i] == x;
    }
    FindEidAbsent(WithKey(a, VersionOf, v), eid);
  }

  lemma PutOldWithKey(d: seq<Event>, e: Event)
    requires e.eid != "" && FindEid(d, e.eid) < |d|
    requires d[FindEid(d, e.eid)].atVersion == e.atVersion
    ensures WithKey(Put(d, e), VersionOf, e.atVersion) == Put(WithKey(d, VersionOf, e.atVersion), e)
  {
    var v, p := e.atVersion, FindEid(d, e.eid);
    var a, b := d[..p], d[p + 1..];
    var wa, wb := WithKey(a, VersionOf, v), WithKey(b, VersionOf, v);
    SplitAt(d, p, e);
    BeforeFind(d, e.eid, v);
    PutAt(wa, d[p], wb, e);
    WithKeySplit(a, d[p], b, v);
    WithKeySplit(a, e, b, v);
  }

  /** Recording an event commutes with selecting the events of its version. */
  lemma PutWithKey(d: seq<Event>, e: Event)
    requires e.eid != "" ==> forall i :: 0 <= i < |d| && d[i].eid == e.eid ==> d[i].atVersion == e.atVersion
    ensures WithKey(Put(d, e), VersionOf, e.atVersion) == Put(WithKey(d, VersionOf, e.atVersion), e)
  {
    if e.eid == "" || FindEid(d, e.eid) == |d| {
      PutNewWithKey(d, e);
    } else {
      PutOldWithKey(d, e);
    }
  }

  lemma {:induction false} DedupFrom(es: seq<Event>)
    ensures forall x :: x in Dedup(es) ==> x in es
  {
    if es != [] {
      var front, e := es[..|es| - 1], es[|es| - 1];
      DedupFrom(front);
      forall x | x in Dedup(es) ensures x in es {
        if x != e { assert x in Dedup(front); }
      }
    }
  }

  /** Dedup commutes with selecting one version. */
  lemma {:induction false} DedupPerVersion(es: seq<Event>, v: int)
    requires OneVersionPerEid(es)
    ensures WithKey(Dedup(es), VersionOf, v) == Dedup(WithKey(es, VersionOf, v))
  {
    if es != [] {
      var front, e := es[..|es| - 1], es[|es| - 1];
      assert OneVersionPerEid(front) by {
        forall i, j | 0 <= i < |front| && 0 <= j < |front| && front[i].eid != "" && front[i].eid == front[j].eid
          ensures front[i].atVersion == front[j].atVersion
        {
          assert front[i] == es[i] && front[j] == es[j];
        }
      }
      DedupPerVersion(front, v);
      DedupEids(front);
      DedupFrom(front);
      var d := Dedup(front);
      forall i | 0 <= i < |d| && d[i].eid != "" && d[i].eid == e.eid ensures d[i].atVersion == e.atVersion {
        assert d[i] in front;
        var j :| 0 <= j < |front| && front[j] == d[i];
        assert es[j] == d[i];
      }
      var w := WithKey(front, VersionOf, v);
      if e.atVersion == v {
        PutWithKey(d, e);
        assert (w + [e])[..|w|] == w;
      } else {
        var p := FindEid(d, e.eid);
        if e.eid != "" && p < |d| {
          WithKeyUpdate(d, p, e, v);
        } else {
          WithKeyConcat(d, [e], VersionOf, v);
          assert [e][..0] == [];
        }
      }
    }
  }

  /** Two logs with the same per-version subsequences replay identically. */
  lemma OrderIndependent(a: seq<Event>, b: seq<Event>)
    requires OneVersionPerEid(a) && OneVersionPerEid(b)
    requires forall v :: WithKey(a, VersionOf, v) == WithKey(b, VersionOf, v)
    ensures Ordered(a) == Ordered(b)
  {
    forall v ensures WithKey(Ordered(a), VersionOf, v) == WithKey(Ordered(b), VersionOf, v) {
      SortStable(Dedup(a), VersionOf, v);
      SortStable(Dedup(b), VersionOf, v);
      DedupPerVersion(a, v);
      DedupPerVersion(b, v);
      assert WithKey(a, VersionOf, v) == WithKey(b, VersionOf, v);
    }
    SortSorted(Dedup(a), VersionOf);
    SortSorted(Dedup(b), VersionOf);
    SortedUnique(Ordered(a), Ordered(b), VersionOf);
  }

  /** So two such logs show every reader the same snapshot, whatever order their versions were written in. */
  lemma FoldIgnoresWriteOrder(c: Record, d: Record, v: int)
    requires d == c.(events := d.events)
    requires OneVersionPerEid(c.events) && OneVersionPerEid(d.events)
    requires forall u :: WithKey(c.events, VersionOf, u) == WithKey(d.events, VersionOf, u)
    ensures SnapshotAt(c, v) == SnapshotAt(d, v)
  {
    OrderIndependent(c.events, d.events);
    if c.events == [] && d.events != [] {
      assert WithKey(c.events, VersionOf, VersionOf(d.events[0])) == [];
      WithKeyHas(d.events, VersionOf, 0);
    }
    if c.events != [] && d.events == [] {
      assert WithKey(d.events, VersionOf, VersionOf(c.events[0])) == [];
      WithKeyHas(c.events, VersionOf, 0);
    }
  }

  /** Compaction shows every reader what the full log shows. */
  lemma CompactionKeepsSnapshots(c: Record, v: int)
    ensures SnapshotAt(c.(events := Dedup(c.events)), v) == SnapshotAt(c, v)
  {
    DedupIdempotent(c.events);
    if c.events != [] {
      assert HasEid(c.events, c.events[0].eid);
      DedupEids(c.events);
      assert HasEid(Dedup(c.events), c.events[0].eid);
    }
    assert Start(c.(events := Dedup(c.events))) == Start(c);
  }
}

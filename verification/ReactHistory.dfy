/** What a toggled reaction does to readers of earlier versions, and runs of toggles (internal/core/ops.go, opReact). */
module ReactHistory {
  import opened Wrappers
  import opened CommentTypes
  import opened EventLog
  import opened Fold
  import opened StableSort
  import opened History
  import opened React

  // ----- what a reader sees depends on the versions up to it

  lemma {:induction false} UptoClasses(xs: seq<Event>, v: int, u: int)
    ensures WithKey(Upto(xs, v), VersionOf, u) ==
            if IsFiniteVersion(u) && u <= v then WithKey(xs, VersionOf, u) else []
  {
    if xs != [] {
      var front, x := xs[..|xs| - 1], xs[|xs| - 1];
      UptoClasses(front, v, u);
      WithKeyConcat(Upto(front, v), [x], VersionOf, u);
      WithKeyOne(x, VersionOf, u);
    }
  }

  lemma {:induction false} UptoSorted(xs: seq<Event>, v: int)
    requires Sorted(xs, VersionOf)
    ensures Sorted(Upto(xs, v), VersionOf)
    ensures forall x :: x in Upto(xs, v) ==> x in xs && Visible(x, v)
  {
    if xs != [] {
      var front, last := xs[..|xs| - 1], xs[|xs| - 1];
      UptoSorted(front, v);
      assert xs == front + [last];
      forall i | 0 <= i < |Upto(front, v)| ensures VersionOf(Upto(front, v)[i]) <= VersionOf(last) {
        assert Upto(front, v)[i] in Upto(front, v);
        var j :| 0 <= j < |front| && front[j] == Upto(front, v)[i];
        assert xs[j] == front[j];
      }
    }
  }

  /** Logs that agree on the versions up to `v` show its reader the same events in the same order. */
  lemma SameUpto(a: seq<Event>, b: seq<Event>, v: int)
    requires forall u :: u <= v ==> WithKey(a, VersionOf, u) == WithKey(b, VersionOf, u)
    ensures Upto(Sort(a, VersionOf), v) == Upto(Sort(b, VersionOf), v)
  {
    var s, t := Sort(a, VersionOf), Sort(b, VersionOf);
    SortSorted(a, VersionOf);
    SortSorted(b, VersionOf);
    UptoSorted(s, v);
    UptoSorted(t, v);
    forall u ensures WithKey(Upto(s, v), VersionOf, u) == WithKey(Upto(t, v), VersionOf, u) {
      UptoClasses(s, v, u);
      UptoClasses(t, v, u);
      SortStable(a, VersionOf, u);
      SortStable(b, VersionOf, u);
    }
    SortedUnique(Upto(s, v), Upto(t, v), VersionOf);
  }

  // ----- an appended event and the readers before it

  function Without(d: seq<Event>, i: nat): seq<Event>
    requires i < |d|
  {
    d[..i] + d[i + 1..]
  }

  /** The reader of `v` sees the event that an event with id `eid` would replace. */
  predicate Sees(es: seq<Event>, eid: string, v: int) {
    var d := Dedup(es);
    var i := FindEid(d, eid);
    i < |d| && d[i].atVersion <= v
  }

  /** The converged log but for the event with that id. */
  function Others(es: seq<Event>, eid: string): seq<Event> {
    var d := Dedup(es);
    var i := FindEid(d, eid);
    if i < |d| then Without(d, i) else d
  }

  /** An event of a later version in the place of `d[i]` hides that one from the reader of `v`. */
  lemma HiddenBehind(d: seq<Event>, i: nat, e: Event, v: int)
    requires i < |d| && e.atVersion > v
    ensures Upto(Sort(d[i := e], VersionOf), v) == Upto(Sort(Without(d, i), VersionOf), v)
    ensures d[i].atVersion > v ==> Upto(Sort(d[i := e], VersionOf), v) == Upto(Sort(d, VersionOf), v)
  {
    var a, b := d[..i], d[i + 1..];
    SplitAt(d, i, e);
    forall u | u <= v
      ensures WithKey(d[i := e], VersionOf, u) == WithKey(Without(d, i), VersionOf, u)
      ensures d[i].atVersion > v ==> WithKey(d[i := e], VersionOf, u) == WithKey(d, VersionOf, u)
    {
      WithKeySplit(a, e, b, u);
      WithKeySplit(a, d[i], b, u);
      WithKeyConcat(a, b, VersionOf, u);
    }
    SameUpto(d[i := e], Without(d, i), v);
    if d[i].atVersion > v {
      SameUpto(d[i := e], d, v);
    }
  }

  /** Appending an event with an id: a reader before its version sees what was there but for an earlier event with that
      id, and simply what was there if it did not see such an event. */
  lemma OlderReaders(es: seq<Event>, e: Event, v: int)
    requires e.eid != "" && v < e.atVersion
    ensures Upto(Ordered(es + [e]), v) == Upto(Sort(Others(es, e.eid), VersionOf), v)
    ensures !Sees(es, e.eid, v) ==> Upto(Ordered(es + [e]), v) == Upto(Ordered(es), v)
  {
    var d := Dedup(es);
    var i := FindEid(d, e.eid);
    assert (es + [e])[..|es|] == es;
    if i < |d| {
      HiddenBehind(d, i, e, v);
    } else {
      forall u | u <= v ensures WithKey(d + [e], VersionOf, u) == WithKey(d, VersionOf, u) {
        WithKeyConcat(d, [e], VersionOf, u);
        WithKeyOne(e, VersionOf, u);
      }
      SameUpto(d + [e], d, v);
    }
  }

  /** A toggle leaves a reader of an earlier version alone, unless that reader sees an event with the toggle's id. */
  lemma ToggleKeepsHistory(
      c: Record, emoji: string, who: string, version: int, at: string, nonce: string, v: int)
    requires SnapshotAt(c, version).Some? && IsFiniteVersion(v) && v < version
    requires !Sees(c.events, ToggleEvent(c, emoji, who, version, at, nonce).eid, v)
    ensures SnapshotAt(Toggled(c, "", emoji, who, version, at, nonce), v) == SnapshotAt(c, v)
  {
    ToggleEventIs(c, emoji, who, version, at, nonce);
    var e := ToggleEvent(c, emoji, who, version, at, nonce);
    OlderReaders(c.events, e, v);
    assert Start(c.(events := c.events + [e])) == Start(c);
  }

  /** Whether a user reacts, by the last word of the events of `es` that a reader of `v` sees. */
  predicate Says(es: seq<Event>, v: int, emoji: string, who: string) {
    LastWord(Upto(Sort(es, VersionOf), v), emoji, who) == Some(true)
  }

  /** For readers of an earlier version a toggle leaves a reaction as it was exactly when the other events, without the
      one that has the toggle's id, still have the same last word on it. */
  lemma ToggleAndHistory(
      c: Record, emoji: string, who: string, version: int, at: string, nonce: string, v: int, mark: string,
        user: string)
    requires SnapshotAt(c, version).Some? && IsFiniteVersion(v) && v < version && SnapshotAt(c, v).Some?
    requires user != AGENT && user != "" && mark != ""
    ensures
      var t := Toggled(c, "", emoji, who, version, at, nonce);
      var eid := ToggleEvent(c, emoji, who, version, at, nonce).eid;
      && SnapshotAt(t, v).Some?
      && (Has(SnapshotAt(t, v).value.reactions, mark, user) <==> Says(Others(c.events, eid), v, mark, user))
      && (Has(SnapshotAt(t, v).value.reactions, mark, user) == Has(SnapshotAt(c, v).value.reactions, mark, user) <==>
            Says(Others(c.events, eid), v, mark, user) == Says(Dedup(c.events), v, mark, user))
  {
    ToggleEventIs(c, emoji, who, version, at, nonce);
    var e := ToggleEvent(c, emoji, who, version, at, nonce);
    var t := c.(events := c.events + [e]);
    OlderReaders(c.events, e, v);
    SnapshotHas(c, v, mark, user);
    SnapshotHas(t, v, mark, user);
  }

  // ----- three toggles of one reaction, on a comment that was just created

  predicate JustCreated(c: Record, nonce: string) {
    && |c.events| == 1 && c.events[0].kind.Created? && c.events[0].eid == EventEID(c.events[0], nonce)
    && c.events[0].atVersion == c.createdIn && IsFiniteVersion(c.createdIn)
  }

  /** The event of a toggle; that it has no nonce is what makes its id fixed. */
  function Toggle(add: bool, emoji: string, who: string, version: int, at: string): Event {
    Stamped(ReactEvent("", !add, emoji, who, version, at), "")
  }

  lemma ToggleIs(add: bool, emoji: string, who: string, version: int, at: string)
    ensures
      var e := Toggle(add, emoji, who, version, at);
      && e.eid == KindName(e.kind) + ":" + emoji + ":" + who && e.eid != ""
      && Concerns(e, emoji, who) && e.kind.ReactionAdded? == add && e.atVersion == version
  {
    EventEIDNonEmpty(ReactEvent("", !add, emoji, who, version, at), "");
  }

  lemma IdsApart(c: Record, nonce: string, emoji: string, who: string, v: int, w: int, at: string)
    requires JustCreated(c, nonce)
    ensures
      var a, r := Toggle(true, emoji, who, v, at), Toggle(false, emoji, who, w, at);
      c.events[0].eid != a.eid && a.eid != r.eid && r.eid != c.events[0].eid && c.events[0].eid != ""
  {
    ToggleIs(true, emoji, who, v, at);
    ToggleIs(false, emoji, who, w, at);
    assert c.events[0].eid[0] == KindName(Created)[0] == 'c';
    assert Toggle(true, emoji, who, v, at).eid[0] == KindName(ReactionAdded)[0] == 'r';
    assert Toggle(false, emoji, who, w, at).eid[0] == KindName(ReactionRemoved)[0] == 'r';
    assert Toggle(true, emoji, who, v, at).eid[9] == KindName(ReactionAdded)[9] == 'a';
    assert Toggle(false, emoji, who, w, at).eid[9] == KindName(ReactionRemoved)[9] == 'r';
  }

  /** A log with distinct ids in ascending versions is replayed as it stands. */
  lemma AscendingIsOrdered(es: seq<Event>)
    requires DistinctEids(es) && Sorted(es, VersionOf)
    ensures Ordered(es) == es
  {
    DedupDistinct(es);
    SortSorted(es, VersionOf);
    forall v ensures WithKey(Sort(es, VersionOf), VersionOf, v) == WithKey(es, VersionOf, v) {
      SortStable(es, VersionOf, v);
    }
    SortedUnique(Sort(es, VersionOf), es, VersionOf);
  }

  lemma UptoSnoc(es: seq<Event>, x: Event, v: int)
    ensures Upto(es + [x], v) == if Visible(x, v) then Upto(es, v) + [x] else Upto(es, v)
  {
    assert (es + [x])[..|es|] == es;
  }

  lemma LastWordSnoc(es: seq<Event>, x: Event, emoji: string, who: string)
    ensures LastWord(es + [x], emoji, who) ==
            if Concerns(x, emoji, who) then Some(x.kind.ReactionAdded?) else LastWord(es, emoji, who)
  {
    assert (es + [x])[..|es|] == es;
  }

  lemma WordOfSnoc(es: seq<Event>, x: Event, v: int, emoji: string, who: string)
    ensures LastWord(Upto(es + [x], v), emoji, who) ==
            if Visible(x, v) && Concerns(x, emoji, who) then Some(x.kind.ReactionAdded?)
            else LastWord(Upto(es, v), emoji, who)
  {
    UptoSnoc(es, x, v);
    LastWordSnoc(Upto(es, v), x, emoji, who);
  }

  /** What a reader sees of the reaction in a log of three events at most: the created event, an added and a removed
      one. */
  lemma FewWords(e: Event, a: Event, r: Event, v: int, emoji: string, who: string)
    requires e.kind.Created? && Concerns(a, emoji, who) && a.kind.ReactionAdded?
    requires Concerns(r, emoji, who) && r.kind.ReactionRemoved?
    ensures LastWord(Upto([e], v), emoji, who) == None
    ensures LastWord(Upto([e, a], v), emoji, who) == if Visible(a, v) then Some(true) else None
    ensures LastWord(Upto([e, r], v), emoji, who) == if Visible(r, v) then Some(false) else None
    ensures LastWord(Upto([e, a, r], v), emoji, who) ==
            if Visible(r, v) then Some(false) else if Visible(a, v) then Some(true) else None
  {
    WordOfSnoc([], e, v, emoji, who);
    WordOfSnoc([e], a, v, emoji, who);
    WordOfSnoc([e], r, v, emoji, who);
    WordOfSnoc([e, a], r, v, emoji, who);
    assert [] + [e] == [e] && [e] + [a] == [e, a] && [e] + [r] == [e, r] && [e, a] + [r] == [e, a, r];
  }

  /** `t`, `u` and `w` are `c` after one, two and three toggles by one user at the versions l, m and n. */
  predicate Thrice(
      c: Record, t: Record, u: Record, w: Record, emoji: string, who: string, l: int, m: int, n: int, at: string) {
    && t == Toggled(c, "", emoji, who, l, at, "") && u == Toggled(t, "", emoji, who, m, at, "")
    && w == Toggled(u, "", emoji, who, n, at, "")
  }

  /** The versions and the names of a run of three toggles. */
  predicate Toggles(c: Record, emoji: string, who: string, l: int, m: int, n: int, nonce: string) {
    && JustCreated(c, nonce) && c.createdIn <= l <= m <= n
    && IsFiniteVersion(l) && IsFiniteVersion(m) && IsFiniteVersion(n)
    && emoji != "" && who != "" && who != AGENT
  }

  /** A toggle by a reader who does not see the reaction adds it, and one by a reader who does takes it away. */
  lemma NextToggle(c: Record, es: seq<Event>, x: Event, emoji: string, who: string, v: int, at: string)
    requires c.events != [] && Ordered(c.events) == c.events && c.createdIn <= v && IsFiniteVersion(v)
    requires emoji != "" && who != "" && who != AGENT && es == c.events + [x]
    requires x == Toggle(LastWord(Upto(c.events, v), emoji, who) != Some(true), emoji, who, v, at)
    ensures Toggled(c, "", emoji, who, v, at, "") == c.(events := es)
  {
    SnapshotHas(c, v, emoji, who);
  }

  /** The created event, an added and a removed reaction of one user, in ascending versions. */
  predicate Trio(e: Event, a: Event, r: Event, emoji: string, who: string) {
    && e.kind.Created? && Concerns(a, emoji, who) && a.kind.ReactionAdded?
    && Concerns(r, emoji, who) && r.kind.ReactionRemoved?
    && e.eid != "" && a.eid != "" && r.eid != "" && e.eid != a.eid && a.eid != r.eid && r.eid != e.eid
    && IsFiniteVersion(e.atVersion) && IsFiniteVersion(a.atVersion) && IsFiniteVersion(r.atVersion)
    && e.atVersion <= a.atVersion && e.atVersion <= r.atVersion
  }

  lemma TrioIs(c: Record, emoji: string, who: string, l: int, m: int, at: string, nonce: string)
    requires JustCreated(c, nonce) && c.createdIn <= l && c.createdIn <= m && IsFiniteVersion(l) && IsFiniteVersion(m)
    ensures Trio(c.events[0], Toggle(true, emoji, who, l, at), Toggle(false, emoji, who, m, at), emoji, who)
  {
    ToggleIs(true, emoji, who, l, at);
    ToggleIs(false, emoji, who, m, at);
    IdsApart(c, nonce, emoji, who, l, m, at);
  }

  lemma TwoOrdered(e: Event, a: Event)
    requires e.eid != a.eid && e.eid != "" && e.atVersion <= a.atVersion
    ensures Ordered([e]) == [e] && Ordered([e, a]) == [e, a] && Dedup([e, a]) == [e, a]
  {
    AscendingIsOrdered([e]);
    AscendingIsOrdered([e, a]);
    DedupDistinct([e, a]);
  }

  lemma ThreeOrdered(e: Event, a: Event, r: Event)
    requires e.eid != a.eid && a.eid != r.eid && r.eid != e.eid && e.eid != "" && a.eid != ""
    ensures Dedup([e, a, r]) == [e, a, r]
    ensures e.atVersion <= a.atVersion <= r.atVersion ==> Ordered([e, a, r]) == [e, a, r]
  {
    var es := [e, a, r];
    assert DistinctEids(es);
    DedupDistinct(es);
    if e.atVersion <= a.atVersion <= r.atVersion {
      AscendingIsOrdered(es);
    }
  }

  lemma ThriceIs(
      c: Record, t: Record, u: Record, w: Record, emoji: string, who: string, l: int, m: int, n: int, at: string,
        nonce: string)
    returns (e: Event, a: Event, r: Event, b: Event)
    requires Toggles(c, emoji, who, l, m, n, nonce) && Thrice(c, t, u, w, emoji, who, l, m, n, at)
    ensures Trio(e, a, r, emoji, who) && Trio(e, b, r, emoji, who) && a.eid == b.eid
    ensures e.atVersion == c.createdIn && a.atVersion == l && r.atVersion == m && b.atVersion == n
    ensures t == c.(events := [e, a]) && u == c.(events := [e, a, r]) && w == c.(events := [e, a, r] + [b])
  {
    e, a, r := c.events[0], Toggle(true, emoji, who, l, at), Toggle(false, emoji, who, m, at);
    b := Toggle(true, emoji, who, n, at);
    ToggleIs(true, emoji, who, l, at);
    ToggleIs(false, emoji, who, m, at);
    ToggleIs(true, emoji, who, n, at);
    TrioIs(c, emoji, who, l, m, at, nonce);
    TrioIs(c, emoji, who, n, m, at, nonce);
    ThriceFrom(c, t, u, w, e, a, r, b, emoji, who, l, m, n, at);
  }

  lemma ThriceFrom(
      c: Record, t: Record, u: Record, w: Record, e: Event, a: Event, r: Event, b: Event,
      emoji: string, who: string, l: int, m: int, n: int, at: string)
    requires Thrice(c, t, u, w, emoji, who, l, m, n, at)
    requires c.events == [e] && Trio(e, a, r, emoji, who) && c.createdIn <= l <= m <= n
    requires IsFiniteVersion(l) && IsFiniteVersion(m) && IsFiniteVersion(n)
    requires a == Toggle(true, emoji, who, l, at) && r == Toggle(false, emoji, who, m, at)
    requires b == Toggle(true, emoji, who, n, at)
    requires emoji != "" && who != "" && who != AGENT && a.atVersion == l && r.atVersion == m
    ensures t == c.(events := [e, a]) && u == c.(events := [e, a, r]) && w == c.(events := [e, a, r] + [b])
  {
    FirstToggle(c, e, a, r, emoji, who, l, at);
    SecondToggle(t, e, a, r, emoji, who, m, at);
    ThirdToggle(u, e, a, r, emoji, who, n, at);
  }

  lemma FirstToggle(c: Record, e: Event, a: Event, r: Event, emoji: string, who: string, l: int, at: string)
    requires c.events == [e] && Trio(e, a, r, emoji, who) && a == Toggle(true, emoji, who, l, at)
    requires c.createdIn <= l && IsFiniteVersion(l) && emoji != "" && who != "" && who != AGENT
    ensures Toggled(c, "", emoji, who, l, at, "") == c.(events := [e, a])
  {
    TwoOrdered(e, a);
    FewWords(e, a, r, l, emoji, who);
    assert [e] + [a] == [e, a];
    NextToggle(c, [e, a], a, emoji, who, l, at);
  }

  lemma SecondToggle(t: Record, e: Event, a: Event, r: Event, emoji: string, who: string, m: int, at: string)
    requires t.events == [e, a] && Trio(e, a, r, emoji, who) && r == Toggle(false, emoji, who, m, at)
    requires t.createdIn <= m && a.atVersion <= m && IsFiniteVersion(m) && emoji != "" && who != "" && who != AGENT
    ensures Toggled(t, "", emoji, who, m, at, "") == t.(events := [e, a, r])
  {
    TwoOrdered(e, a);
    FewWords(e, a, r, m, emoji, who);
    assert [e, a] + [r] == [e, a, r];
    NextToggle(t, [e, a, r], r, emoji, who, m, at);
  }

  lemma ThirdToggle(u: Record, e: Event, a: Event, r: Event, emoji: string, who: string, n: int, at: string)
    requires u.events == [e, a, r] && Trio(e, a, r, emoji, who) && a.atVersion <= r.atVersion <= n
    requires u.createdIn <= n && IsFiniteVersion(n) && emoji != "" && who != "" && who != AGENT
    ensures Toggled(u, "", emoji, who, n, at, "") == u.(events := [e, a, r] + [Toggle(true, emoji, who, n, at)])
  {
    ThreeOrdered(e, a, r);
    FewWords(e, a, r, n, emoji, who);
    NextToggle(u, [e, a, r] + [Toggle(true, emoji, who, n, at)], Toggle(true, emoji, who, n, at), emoji, who, n, at);
  }

  /** The third event takes the place of the first. */
  lemma ThirdPlace(e: Event, a: Event, r: Event, b: Event)
    requires e.eid != a.eid && a.eid == b.eid != "" && Dedup([e, a, r]) == [e, a, r]
    ensures Dedup([e, a, r] + [b]) == [e, b, r] && Others([e, a, r], b.eid) == [e, r]
  {
    assert ([e, a, r] + [b])[..3] == [e, a, r];
    assert [e, a, r][1] == a && FindEid([e, a, r], b.eid) == 1;
    assert [e, a, r][1 := b] == [e, b, r];
    assert [e, a, r][..1] + [e, a, r][2..] == [e, r];
  }

  /** Whether a reader sees the reaction in a log that is replayed as `es`. */
  lemma Shows(c: Record, es: seq<Event>, v: int, emoji: string, who: string)
    requires c.events != [] && Ordered(c.events) == es && c.createdIn <= v && IsFiniteVersion(v)
    requires emoji != "" && who != "" && who != AGENT
    ensures SnapshotAt(c, v).Some?
    ensures Has(SnapshotAt(c, v).value.reactions, emoji, who) <==> LastWord(Upto(es, v), emoji, who) == Some(true)
  {
    SnapshotHas(c, v, emoji, who);
  }

  /** A reaction that was taken away cannot be added again at the same version: the third toggle's event takes the place
      of the first one, in front of the removal. */
  lemma ReAddHasNoEffect(
      c: Record, t: Record, u: Record, w: Record, emoji: string, who: string, l: int, m: int, at: string, nonce: string)
    requires Toggles(c, emoji, who, l, m, m, nonce) && Thrice(c, t, u, w, emoji, who, l, m, m, at)
    ensures SnapshotAt(t, m).Some? && Has(SnapshotAt(t, m).value.reactions, emoji, who)
    ensures SnapshotAt(u, m).Some? && !Has(SnapshotAt(u, m).value.reactions, emoji, who)
    ensures SnapshotAt(w, m).Some? && !Has(SnapshotAt(w, m).value.reactions, emoji, who)
  {
    var e, a, r, b := ThriceIs(c, t, u, w, emoji, who, l, m, m, at, nonce);
    TwoOrdered(e, a);
    ThreeOrdered(e, a, r);
    ThreeOrdered(e, b, r);
    ThirdPlace(e, a, r, b);
    FewWords(e, a, r, m, emoji, who);
    FewWords(e, b, r, m, emoji, who);
    Shows(t, [e, a], m, emoji, who);
    Shows(u, [e, a, r], m, emoji, who);
    Shows(w, [e, b, r], m, emoji, who);
  }

  /** Adding it again at a later version takes it away from the readers who saw it before the removal. */
  lemma ReAddRewritesHistory(
      c: Record, t: Record, u: Record, w: Record, emoji: string, who: string, l: int, m: int, n: int,
      at: string, nonce: string, v: int)
    requires Toggles(c, emoji, who, l, m, n, nonce) && Thrice(c, t, u, w, emoji, who, l, m, n, at)
    requires l <= v < m && IsFiniteVersion(v)
    ensures SnapshotAt(u, v).Some? && Has(SnapshotAt(u, v).value.reactions, emoji, who)
    ensures SnapshotAt(w, v).Some? && !Has(SnapshotAt(w, v).value.reactions, emoji, who)
  {
    var e, a, r, b := ThriceIs(c, t, u, w, emoji, who, l, m, n, at, nonce);
    SeenBefore(u, e, a, r, emoji, who, v);
    HiddenAfter(w, e, a, r, b, emoji, who, v);
  }

  lemma SeenBefore(u: Record, e: Event, a: Event, r: Event, emoji: string, who: string, v: int)
    requires u.events == [e, a, r] && Trio(e, a, r, emoji, who) && u.createdIn <= v && IsFiniteVersion(v)
    requires a.atVersion <= v < r.atVersion && emoji != "" && who != "" && who != AGENT
    ensures SnapshotAt(u, v).Some? && Has(SnapshotAt(u, v).value.reactions, emoji, who)
  {
    ThreeOrdered(e, a, r);
    FewWords(e, a, r, v, emoji, who);
    Shows(u, [e, a, r], v, emoji, who);
  }

  lemma HiddenAfter(w: Record, e: Event, a: Event, r: Event, b: Event, emoji: string, who: string, v: int)
    requires w.events == [e, a, r] + [b] && Trio(e, a, r, emoji, who) && a.eid == b.eid
    requires w.createdIn <= v && IsFiniteVersion(v) && v < r.atVersion && v < b.atVersion && who != AGENT
    ensures SnapshotAt(w, v).Some? && !Has(SnapshotAt(w, v).value.reactions, emoji, who)
  {
    ThreeOrdered(e, a, r);
    ThirdPlace(e, a, r, b);
    TwoOrdered(e, r);
    FewWords(e, a, r, v, emoji, who);
    OlderReaders([e, a, r], b, v);
    SnapshotHas(w, v, emoji, who);
  }
}

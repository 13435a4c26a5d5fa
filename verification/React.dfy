/** Toggling a reaction (internal/core/ops.go, opReact): what an appended reaction event does to the fold, given that
    a repeated parent reaction takes the place of the earlier event with its id. */
module React {
  import opened Wrappers
  import opened CommentTypes
  import opened EventLog
  import opened Fold
  import opened StableSort
  import opened History
  import opened CommentStore
  import FoldMachine

  function ReactionsOf(s: Snapshot, replyId: string): Reactions {
    if replyId == "" then s.reactions else ReplyReactions(s.replies, replyId)
  }

  function ReplyReactions(replies: seq<ReplySnapshot>, replyId: string): Reactions {
    if replies == [] then map[]
    else if replies[0].id == replyId then replies[0].reactions
    else ReplyReactions(replies[1..], replyId)
  }

  predicate Has(r: Reactions, emoji: string, who: string) {
    who in Users(r, emoji)
  }

  function ReactKind(replyId: string, had: bool): EventKind {
    if replyId != "" then (if had then ReplyReactionRemoved else ReplyReactionAdded)
    else if had then ReactionRemoved else ReactionAdded
  }

  function ReactEvent(replyId: string, had: bool, emoji: string, who: string, version: int, at: string): Event {
    Blank(ReactKind(replyId, had), version, at).(emoji := emoji, actor := who, replyId := replyId)
  }

  /** The comment after a toggle by a reader who sees it at `version`. */
  function Toggled(
      c: Record, replyId: string, emoji: string, who: string, version: int, at: string, nonce: string): Record {
    match SnapshotAt(c, version)
    case None => c
    case Some(s) =>
      var had := Has(ReactionsOf(s, replyId), emoji, who);
      c.(events := c.events + [Stamped(ReactEvent(replyId, had, emoji, who, version, at), nonce)])
  }

  lemma ToggledIs(
      c: Record, s: Snapshot, replyId: string, ev: Event, emoji: string, who: string, version: int, at: string,
        nonce: string)
    requires SnapshotAt(c, version) == Some(s)
    requires ev == ReactEvent(replyId, Has(ReactionsOf(s, replyId), emoji, who), emoji, who, version, at)
    ensures Toggled(c, replyId, emoji, who, version, at, nonce) == c.(events := c.events + [Stamped(ev, nonce)])
  {
  }

  /** The event of a toggle by a user who sees these reactions. */
  method NewReaction(reactions: Reactions, replyId: string, emoji: string, who: string, version: int, at: string)
    returns (ev: Event)
    ensures ev == ReactEvent(replyId, Has(reactions, emoji, who), emoji, who, version, at)
  {
    var idx := FoldMachine.FindUser(Users(reactions, emoji), who);
    ev := Blank(Created, version, at).(emoji := emoji, actor := who);
    if replyId != "" {
      ev := ev.(replyId := replyId, kind := if idx >= 0 then ReplyReactionRemoved else ReplyReactionAdded);
    } else if idx >= 0 {
      ev := ev.(kind := ReactionRemoved);
    } else {
      ev := ev.(kind := ReactionAdded);
    }
  }

  /** opReact on the comment that FindHost found, with the reply it found in it ("" for none). */
  method OpReact(c: Comment, replyId: string, emoji: string, who: string, version: int, at: string,
                 nonce: nat -> string)
    returns (r: Option<Reactions>)
    modifies c`events
    ensures c.Value() ==
            Toggled(Filled(old(c.Value()), nonce), replyId, emoji, who, version, at, nonce(|old(c.events)|))
    ensures r == if SnapshotAt(Filled(old(c.Value()), nonce), version).None? ||
            SnapshotAt(c.Value(), version).None? then None
                 else Some(ReactionsOf(SnapshotAt(c.Value(), version).value, replyId))
  {
    FilledStays(c.Value(), nonce);
    var snap := FoldMachine.ReadSnapshot(c, version, nonce);
    if snap.None? {
      return None;
    }
    var ev := NewReaction(ReactionsOf(snap.value, replyId), replyId, emoji, who, version, at);
    ghost var filled := c.Value();
    ToggledIs(filled, snap.value, replyId, ev, emoji, who, version, at, nonce(|c.events|));
    EventEIDNonEmpty(ev, nonce(|c.events|));
    c.AppendEvent(ev, nonce(|c.events|));
    assert c.Value() == filled.(events := filled.events + [Stamped(ev, nonce(|filled.events|))]);
    FilledStays(c.Value(), nonce);
    var after := FoldMachine.ReadSnapshot(c, version, nonce);
    return if after.None? then None else Some(ReactionsOf(after.value, replyId));
  }

  // ----- who reacts, read off the events

  predicate Concerns(e: Event, emoji: string, who: string) {
    (e.kind.ReactionAdded? || e.kind.ReactionRemoved?) && e.emoji == emoji && e.actor == who
  }

  /** Whether the last event about the user and the emoji adds the reaction. */
  function LastWord(es: seq<Event>, emoji: string, who: string): Option<bool> {
    if es == [] then None
    else if Concerns(es[|es| - 1], emoji, who) then Some(es[|es| - 1].kind.ReactionAdded?)
    else LastWord(es[..|es| - 1], emoji, who)
  }

  predicate NoRepeats(users: seq<string>) {
    forall i, j :: 0 <= i < j < |users| ==> users[i] != users[j]
  }

  predicate Clean(r: Reactions) {
    forall emoji :: emoji in r ==> NoRepeats(r[emoji])
  }

  lemma ApplyHas(r: Reactions, emoji: string, who: string, add: bool, emoji': string, who': string)
    requires Clean(r)
    ensures
      var s := ApplyReaction(r, emoji, who, add);
      && Clean(s)
      && Has(s, emoji', who') == if emoji == emoji' && who == who' then add else Has(r, emoji', who')
  {
    var users := Users(r, emoji);
    var i := IndexOf(users, who);
    if i >= 0 {
      var left := users[..i] + users[i + 1..];
      assert forall u :: u in left <==> u in users && u != who;
    }
  }

  lemma EventHas(v: View, e: Event, emoji: string, who: string)
    requires Clean(v.snap.reactions) && emoji != "" && who != ""
    ensures
      var w := ApplyEvent(v, e);
      && Clean(w.snap.reactions)
      && Has(w.snap.reactions, emoji, who) ==
         if Concerns(e, emoji, who) then e.kind.ReactionAdded? else Has(v.snap.reactions, emoji, who)
  {
    match e.kind
    case Created | TextEdited | AnchorChanged => assert ApplyContent(v, e).snap.reactions == v.snap.reactions;
    case MarkedApplied | MarkedOpen | Deleted => assert ApplyStatus(v, e).snap.reactions == v.snap.reactions;
    case ReactionAdded | ReactionRemoved =>
      ApplyHas(v.snap.reactions, e.emoji, e.actor, e.kind.ReactionAdded?, emoji, who);
    case _ => assert ApplyReply(v, e).snap == v.snap;
  }

  lemma {:induction false} RunHas(v: View, es: seq<Event>, emoji: string, who: string)
    requires v.snap.reactions == map[] && emoji != "" && who != ""
    ensures Clean(Run(v, es).snap.reactions)
    ensures Has(Run(v, es).snap.reactions, emoji, who) <==> LastWord(es, emoji, who) == Some(true)
  {
    if es != [] {
      RunHas(v, es[..|es| - 1], emoji, who);
      EventHas(Run(v, es[..|es| - 1]), es[|es| - 1], emoji, who);
    }
  }

  /** Nobody reacts with an empty emoji or as nobody. */
  lemma {:induction false} RunHasNobody(v: View, es: seq<Event>, emoji: string, who: string)
    requires v.snap.reactions == map[] && (emoji == "" || who == "")
    ensures Clean(Run(v, es).snap.reactions) && !Has(Run(v, es).snap.reactions, emoji, who)
  {
    if es != [] {
      RunHasNobody(v, es[..|es| - 1], emoji, who);
      EventHasNobody(Run(v, es[..|es| - 1]), es[|es| - 1], emoji, who);
    }
  }

  lemma EventHasNobody(v: View, e: Event, emoji: string, who: string)
    requires Clean(v.snap.reactions) && !Has(v.snap.reactions, emoji, who) && (emoji == "" || who == "")
    ensures Clean(ApplyEvent(v, e).snap.reactions) && !Has(ApplyEvent(v, e).snap.reactions, emoji, who)
  {
    match e.kind
    case Created | TextEdited | AnchorChanged => assert ApplyContent(v, e).snap.reactions == v.snap.reactions;
    case MarkedApplied | MarkedOpen | Deleted => assert ApplyStatus(v, e).snap.reactions == v.snap.reactions;
    case ReactionAdded | ReactionRemoved =>
      if e.emoji != "" && e.actor != "" {
        ApplyHas(v.snap.reactions, e.emoji, e.actor, e.kind.ReactionAdded?, emoji, who);
      }
    case _ => assert ApplyReply(v, e).snap == v.snap;
  }

  /** The verdict's emoji is the agent's own reaction; everyone else's are those of the events. */
  lemma FinalHas(v: View, emoji: string, who: string)
    requires Clean(v.snap.reactions) && who != AGENT
    ensures Has(Finalize(v).reactions, emoji, who) == Has(v.snap.reactions, emoji, who)
  {
    if v.verdict.Some? {
      ApplyHas(v.snap.reactions, VerdictEmoji(v.verdict.value), AGENT, true, emoji, who);
    }
  }

  /** Whether a user other than the agent reacts at a version is the last word of the events up to it. */
  lemma SnapshotHas(c: Record, version: int, emoji: string, who: string)
    requires SnapshotAt(c, version).Some? && who != AGENT
    ensures
      Has(SnapshotAt(c, version).value.reactions, emoji, who) <==>
      emoji != "" && who != "" && LastWord(Upto(Ordered(c.events), ReadVersion(version)), emoji, who) == Some(true)
  {
    var es := Upto(Ordered(c.events), ReadVersion(version));
    if emoji != "" && who != "" {
      RunHas(Start(c), es, emoji, who);
    } else {
      RunHasNobody(Start(c), es, emoji, who);
    }
    FinalHas(Run(Start(c), es), emoji, who);
  }

  // ----- the last word at a version is that version's own, if it has one

  lemma {:induction false} LastWordConcat(a: seq<Event>, b: seq<Event>, emoji: string, who: string)
    ensures LastWord(a + b, emoji, who) ==
            if LastWord(b, emoji, who).Some? then LastWord(b, emoji, who) else LastWord(a, emoji, who)
  {
    if b == [] {
      assert a + b == a;
    } else {
      assert (a + b)[..|a + b| - 1] == a + b[..|b| - 1];
      LastWordConcat(a, b[..|b| - 1], emoji, who);
    }
  }

  lemma {:induction false} UptoSplit(xs: seq<Event>, v: int)
    requires Sorted(xs, VersionOf) && IsFiniteVersion(v)
    ensures Upto(xs, v) == Upto(xs, v - 1) + WithKey(xs, VersionOf, v)
  {
    if xs != [] {
      var front, x := xs[..|xs| - 1], xs[|xs| - 1];
      UptoSplit(front, v);
      if x.atVersion < v {
        forall y | y in front ensures VersionOf(y) != v {
          var i :| 0 <= i < |front| && front[i] == y;
          assert VersionOf(xs[i]) <= VersionOf(xs[|xs| - 1]);
        }
        WithKeyNone(front, VersionOf, v);
      }
    }
  }

  lemma LastWordAt(es: seq<Event>, v: int, emoji: string, who: string)
    requires IsFiniteVersion(v)
    ensures
      var w := LastWord(WithKey(Dedup(es), VersionOf, v), emoji, who);
      w.Some? ==> LastWord(Upto(Ordered(es), v), emoji, who) == w
  {
    SortSorted(Dedup(es), VersionOf);
    SortStable(Dedup(es), VersionOf, v);
    UptoSplit(Ordered(es), v);
    LastWordConcat(Upto(Ordered(es), v - 1), WithKey(Ordered(es), VersionOf, v), emoji, who);
  }

  // ----- toggling

  /** The converged log behind the place an event with the id takes: behind its first occurrence, or nothing. */
  function Behind(es: seq<Event>, eid: string): seq<Event> {
    var d := Dedup(es);
    var i := FindEid(d, eid);
    if i < |d| then d[i + 1..] else []
  }

  /** An event of the same version behind the place of `eid` has the last word, and it says `word`. */
  predicate Overruled(es: seq<Event>, eid: string, version: int, emoji: string, who: string, word: bool) {
    LastWord(WithKey(Behind(es, eid), VersionOf, version), emoji, who) == Some(word)
  }

  /** The last word on the event's own version once the event is appended. */
  lemma AppendedWord(es: seq<Event>, e: Event, emoji: string, who: string)
    requires e.eid != "" && Concerns(e, emoji, who)
    ensures
      var later := LastWord(WithKey(Behind(es, e.eid), VersionOf, e.atVersion), emoji, who);
      LastWord(WithKey(Dedup(es + [e]), VersionOf, e.atVersion), emoji, who) ==
        if later.Some? then later else Some(e.kind.ReactionAdded?)
  {
    var d, v := Dedup(es), e.atVersion;
    assert (es + [e])[..|es + [e]| - 1] == es;
    var i := FindEid(d, e.eid);
    var a, b := if i < |d| then d[..i] else d, Behind(es, e.eid);
    assert Put(d, e) == a + [e] + b;
    WithKeySplit(a, e, b, v);
    var wa, wb := WithKey(a, VersionOf, v), WithKey(b, VersionOf, v);
    LastWordConcat(wa + [e], wb, emoji, who);
    assert (wa + [e])[..|wa + [e]| - 1] == wa;
  }

  /** The event a toggle of a parent reaction appends; its id depends on the kind, the emoji and the user alone. */
  function ToggleEvent(c: Record, emoji: string, who: string, version: int, at: string, nonce: string): Event
    requires SnapshotAt(c, version).Some?
  {
    var had := Has(SnapshotAt(c, version).value.reactions, emoji, who);
    Stamped(ReactEvent("", had, emoji, who, version, at), nonce)
  }

  lemma ToggleEventIs(c: Record, emoji: string, who: string, version: int, at: string, nonce: string)
    requires SnapshotAt(c, version).Some?
    ensures
      var e := ToggleEvent(c, emoji, who, version, at, nonce);
      && e.eid != "" && Concerns(e, emoji, who) && e.atVersion == version
      && e.kind.ReactionAdded? == !Has(SnapshotAt(c, version).value.reactions, emoji, who)
      && e.eid == KindName(e.kind) + ":" + emoji + ":" + who
    ensures Toggled(c, "", emoji, who, version, at, nonce) ==
            c.(events := c.events + [ToggleEvent(c, emoji, who, version, at, nonce)])
  {
    EventEIDNonEmpty(
      ReactEvent("", Has(SnapshotAt(c, version).value.reactions, emoji, who), emoji, who, version, at), nonce);
  }

  lemma SnapshotStays(c: Record, e: Event, version: int)
    requires SnapshotAt(c, version).Some?
    ensures SnapshotAt(c.(events := c.events + [e]), version).Some?
  {
  }

  lemma ToggleWord(c: Record, e: Event, version: int, emoji: string, who: string)
    requires e.eid != "" && Concerns(e, emoji, who) && e.atVersion == version && IsFiniteVersion(version) &&
             who != AGENT
    requires SnapshotAt(c, version).Some?
    ensures
      var t := c.(events := c.events + [e]);
      var later := LastWord(WithKey(Behind(c.events, e.eid), VersionOf, version), emoji, who);
      && SnapshotAt(t, version).Some?
      && (Has(SnapshotAt(t, version).value.reactions, emoji, who) <==>
            emoji != "" && who != "" && (if later.Some? then later.value else e.kind.ReactionAdded?))
  {
    var t := c.(events := c.events + [e]);
    SnapshotStays(c, e, version);
    SnapshotHas(t, version, emoji, who);
    AppendedWord(c.events, e, emoji, who);
    LastWordAt(t.events, version, emoji, who);
  }

  /** A parent reaction toggles what its reader sees, exactly unless an opposite event of the same version stands
      behind the place that the event's fixed id gives it (or the emoji or the user is empty, which the fold
      ignores). */
  lemma ToggleWorks(c: Record, emoji: string, who: string, version: int, at: string, nonce: string)
    requires SnapshotAt(c, version).Some? && IsFiniteVersion(version) && who != AGENT
    ensures
      var t := Toggled(c, "", emoji, who, version, at, nonce);
      var had := Has(SnapshotAt(c, version).value.reactions, emoji, who);
      var eid := ToggleEvent(c, emoji, who, version, at, nonce).eid;
      && SnapshotAt(t, version).Some?
      && (Has(SnapshotAt(t, version).value.reactions, emoji, who) != had <==>
            emoji != "" && who != "" && !Overruled(c.events, eid, version, emoji, who, had))
  {
    var e := ToggleEvent(c, emoji, who, version, at, nonce);
    ToggleEventIs(c, emoji, who, version, at, nonce);
    ToggleWord(c, e, version, emoji, who);
    SnapshotHas(c, version, emoji, who);
  }

  /** The agent's own verdict cannot be toggled away. */
  lemma VerdictSticks(c: Record, version: int)
    requires SnapshotAt(c, version).Some?
    requires
      var v := Replay(c, ReadVersion(version)).verdict;
      v.Some? && VerdictEmoji(v.value) != ""
    ensures Has(SnapshotAt(c, version).value.reactions, VerdictEmoji(Replay(c, ReadVersion(version)).verdict.value),
                AGENT)
  {
    var v := Replay(c, ReadVersion(version));
    RunHasNobody(Start(c), Upto(Ordered(c.events), ReadVersion(version)), "", AGENT);
    ApplyHas(v.snap.reactions, VerdictEmoji(v.verdict.value), AGENT, true, VerdictEmoji(v.verdict.value), AGENT);
  }

  // ----- reactions to replies

  predicate HasReply(replies: seq<ReplySnapshot>, id: string) {
    exists i :: 0 <= i < |replies| && replies[i].id == id
  }

  predicate RepliesClean(v: View) {
    forall id :: id in v.replyById ==> v.replyById[id].id == id && Clean(v.replyById[id].reactions)
  }

  lemma EventReplies(v: View, e: Event)
    requires RepliesClean(v)
    ensures RepliesClean(ApplyEvent(v, e))
  {
    match e.kind
    case Created | TextEdited | AnchorChanged => assert ApplyContent(v, e).replyById == v.replyById;
    case MarkedApplied | MarkedOpen | Deleted => assert ApplyStatus(v, e).replyById == v.replyById;
    case ReactionAdded | ReactionRemoved => assert ApplyParentReaction(v, e).replyById == v.replyById;
    case ReplyAdded => assert RepliesClean(AddReply(v, e));
    case _ => if e.replyId in v.replyById { EditedClean(v.replyById[e.replyId], e); }
  }

  lemma EditedClean(r: ReplySnapshot, e: Event)
    requires Clean(r.reactions)
    ensures EditedReply(r, e).id == r.id && Clean(EditedReply(r, e).reactions)
  {
    if e.kind.ReplyReactionAdded? || e.kind.ReplyReactionRemoved? {
      ApplyHas(r.reactions, e.emoji, e.actor, e.kind.ReplyReactionAdded?, "", "");
    }
  }

  lemma {:induction false} RunReplies(v: View, es: seq<Event>)
    requires v.replyById == map[]
    ensures RepliesClean(Run(v, es))
  {
    if es != [] {
      RunReplies(v, es[..|es| - 1]);
      EventReplies(Run(v, es[..|es| - 1]), es[|es| - 1]);
    }
  }

  lemma {:induction false} FirstReply(a: seq<ReplySnapshot>, r: ReplySnapshot, id: string)
    ensures HasReply(a + [r], id) <==> HasReply(a, id) || r.id == id
    ensures ReplyReactions(a + [r], id) ==
            if HasReply(a, id) then ReplyReactions(a, id) else if r.id == id then r.reactions else map[]
    ensures !HasReply(a, id) ==> ReplyReactions(a, id) == map[]
  {
    assert (a + [r])[|a|] == r && forall i :: 0 <= i < |a| ==> (a + [r])[i] == a[i];
    if a != [] {
      FirstReply(a[1..], r, id);
      assert (a + [r])[1..] == a[1..] + [r];
      assert HasReply(a, id) <==> a[0].id == id || HasReply(a[1..], id) by {
        if HasReply(a, id) && a[0].id != id {
          var i :| 0 <= i < |a| && a[i].id == id;
          assert a[1..][i - 1].id == id;
        }
        if HasReply(a[1..], id) {
          var i :| 0 <= i < |a[1..]| && a[1..][i].id == id;
          assert a[i + 1].id == id;
        }
      }
    }
  }

  /** A snapshot's replies are the live ones, each with its own reactions. */
  lemma {:induction false} LiveReactions(order: seq<string>, byId: map<string, ReplySnapshot>, id: string)
    requires forall k :: k in byId ==> byId[k].id == k
    ensures
      var live := id in order && id in byId && !byId[id].deleted;
      && (HasReply(LiveReplies(order, byId), id) <==> live)
      && ReplyReactions(LiveReplies(order, byId), id) == if live then byId[id].reactions else map[]
  {
    if order != [] {
      var front, last := order[..|order| - 1], order[|order| - 1];
      LiveReactions(front, byId, id);
      assert order == front + [last];
      if last in byId {
        FirstReply(LiveReplies(front, byId), byId[last], id);
      }
    }
  }

  lemma ReplySeen(v: View, id: string)
    requires RepliesClean(v) && id != ""
    ensures
      var live := id in v.replyOrder && id in v.replyById && !v.replyById[id].deleted;
      && (HasReply(Finalize(v).replies, id) <==> live)
      && ReactionsOf(Finalize(v), id) == if live then v.replyById[id].reactions else map[]
  {
    LiveReactions(v.replyOrder, v.replyById, id);
  }

  /** What an event that reacts to a reply changes. */
  lemma ReplyEventIs(v: View, e: Event)
    requires e.kind.ReplyReactionAdded? || e.kind.ReplyReactionRemoved?
    ensures ApplyEvent(v, e).replyOrder == v.replyOrder
    ensures ApplyEvent(v, e).replyById ==
            if e.replyId in v.replyById then v.replyById[e.replyId := EditedReply(v.replyById[e.replyId], e)]
               else v.replyById
  {
  }

  lemma ReplyTurned(v: View, e: Event, id: string, emoji: string, who: string, had: bool)
    requires RepliesClean(v) && id != "" && had == Has(ReactionsOf(Finalize(v), id), emoji, who)
    requires e.kind == ReactKind(id, had) && e.replyId == id && e.emoji == emoji && e.actor == who
    ensures Has(ReactionsOf(Finalize(ApplyEvent(v, e)), id), emoji, who) != had <==>
            HasReply(Finalize(v).replies, id) && emoji != "" && who != ""
  {
    EventReplies(v, e);
    ReplyEventIs(v, e);
    ReplySeen(v, id);
    ReplySeen(ApplyEvent(v, e), id);
    if id in v.replyById {
      EditedHas(v.replyById[id], e, emoji, who);
    }
  }

  lemma EditedHas(r: ReplySnapshot, e: Event, emoji: string, who: string)
    requires Clean(r.reactions) && (e.kind.ReplyReactionAdded? || e.kind.ReplyReactionRemoved?)
    requires e.emoji == emoji && e.actor == who
    ensures EditedReply(r, e).deleted == r.deleted
    ensures Has(EditedReply(r, e).reactions, emoji, who) ==
            if emoji != "" && who != "" then e.kind.ReplyReactionAdded? else Has(r.reactions, emoji, who)
  {
    ApplyHas(r.reactions, emoji, who, e.kind.ReplyReactionAdded?, emoji, who);
  }

  /** Toggling a reaction to a reply always shows, unless the reply is not there to be seen (or the emoji or the user is
      empty): its event has an id of its own, and lands behind all that the reader sees. */
  lemma ReplyToggleWorks(
      c: Record, replyId: string, emoji: string, who: string, version: int, at: string, nonce: string)
    requires SnapshotAt(c, version).Some? && IsFiniteVersion(version) && replyId != ""
    requires
      var had := Has(ReactionsOf(SnapshotAt(c, version).value, replyId), emoji, who);
      !HasEid(c.events, EventEID(ReactEvent(replyId, had, emoji, who, version, at), nonce))
    ensures
      var s, t := SnapshotAt(c, version), SnapshotAt(Toggled(c, replyId, emoji, who, version, at, nonce), version);
      && t.Some?
      && (Has(ReactionsOf(t.value, replyId), emoji, who) != Has(ReactionsOf(s.value, replyId), emoji, who) <==>
            HasReply(s.value.replies, replyId) && emoji != "" && who != "")
  {
    var had := Has(ReactionsOf(SnapshotAt(c, version).value, replyId), emoji, who);
    var e := Stamped(ReactEvent(replyId, had, emoji, who, version, at), nonce);
    EventEIDNonEmpty(ReactEvent(replyId, had, emoji, who, version, at), nonce);
    var ua, ub := ReplayAppend(c, e, version);
    RunReplies(Start(c), Upto(Ordered(c.events), version));
    ReplyTurned(Replay(c, version), e, replyId, emoji, who, had);
  }

  // ----- ids that reactions share

  lemma ColonAt(a: string, b: string)
    requires ':' !in a
    ensures (a + ":" + b)[|a|] == ':' && forall i :: 0 <= i < |a| ==> (a + ":" + b)[i] != ':'
  {
    forall i | 0 <= i < |a| ensures (a + ":" + b)[i] != ':' {
      assert (a + ":" + b)[i] == a[i] && a[i] in a;
    }
  }

  lemma JoinedApart(a: string, b: string, c: string, d: string)
    requires ':' !in a && ':' !in c && a + ":" + b == c + ":" + d
    ensures a == c && b == d
  {
    var x := a + ":" + b;
    ColonAt(a, b);
    ColonAt(c, d);
    assert x[|a|] == ':' && x[|c|] == ':';
    assert x[..|a|] == a && x[|a| + 1..] == b;
    assert x[..|c|] == c && x[|c| + 1..] == d;
  }

  /** Two reactions have one id exactly when they are of one kind and their emoji and user, joined by a colon, read the
      same: with emojis free of colons, when these are the same. */
  lemma SharedIds(e: Event, f: Event, nonce: string, nonce': string)
    requires (e.kind.ReactionAdded? || e.kind.ReactionRemoved?) && (f.kind.ReactionAdded? || f.kind.ReactionRemoved?)
    ensures EventEID(e, nonce) == EventEID(f, nonce') <==>
            e.kind == f.kind && e.emoji + ":" + e.actor == f.emoji + ":" + f.actor
    ensures ':' !in e.emoji && ':' !in f.emoji && EventEID(e, nonce) == EventEID(f, nonce') ==>
            e.emoji == f.emoji && e.actor == f.actor
  {
    var k, l := KindName(e.kind), KindName(f.kind);
    var x, y := e.emoji + ":" + e.actor, f.emoji + ":" + f.actor;
    assert k + ":" + e.emoji + ":" + e.actor == k + ":" + x;
    assert l + ":" + f.emoji + ":" + f.actor == l + ":" + y;
    assert EventEID(e, nonce)[9] == k[9] && EventEID(f, nonce')[9] == l[9];
    assert (k + ":" + x)[|k| + 1..] == x && (l + ":" + y)[|l| + 1..] == y;
    if ':' !in e.emoji && ':' !in f.emoji && x == y {
      JoinedApart(e.emoji, e.actor, f.emoji, f.actor);
    }
  }

  /** Two users' reactions can share one id, since an emoji is any text. */
  lemma SharedIdExample(at: string, nonce: string)
    ensures
      EventEID(Blank(ReactionAdded, 1, at).(emoji := "a:b", actor := "c"), nonce) ==
      EventEID(Blank(ReactionAdded, 1, at).(emoji := "a", actor := "b:c"), nonce)
  {
    assert "a:b" + ":" + "c" == "a" + ":" + "b:c";
    SharedIds(Blank(ReactionAdded, 1, at).(emoji := "a:b", actor := "c"),
              Blank(ReactionAdded, 1, at).(emoji := "a", actor := "b:c"), nonce, nonce);
  }
}
